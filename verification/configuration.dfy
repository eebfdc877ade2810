/**
 The configuration lookups of `coopcontrol/configuration.py`. The active
 environment's section of the YAML file is a value `section`; the process
 environment that `os.getenv` reads is the map `env`.

 - `Attr` is attribute access `config.name`: a top-level entry of the section.
 - `Get` is `config.get("a.b.c")`: an exact key at the current level wins,
   otherwise the first dotted segment is looked up and the rest is searched
   inside it.
 - Both pass the value found through `ReplaceSecrets`, which swaps a string
   `{{NAME}}` for a non-empty environment variable NAME.
 */
module Configuration {
  import opened Python

  /** The process environment: variable name to value. */
  type Environment = map<string, string>

  // ---------------------------------------------------------------------------
  // Secret placeholders

  predicate IsNameChar(c: char) {
    ('A' <= c <= 'Z') || ('0' <= c <= '9') || c == '_'
  }

  /** A match of `[A-Z0-9_]+`. */
  predicate IsSecretName(name: string) {
    |name| >= 1 && forall i | 0 <= i < |name| :: IsNameChar(name[i])
  }

  /** The text `{{NAME}}`. */
  function Placeholder(name: string): string {
    "{{" + name + "}}"
  }

  /** Group 1 of `re.match(r"^{{([A-Z0-9_]+)}}$", value)`, if it matches. `$` also
      matches just before a final newline, so one trailing newline is allowed. */
  function SecretName(value: string): (r: Option<string>)
    ensures r.Some? ==> IsSecretName(r.value) && (value == Placeholder(r.value) || value == Placeholder(r.value) + "\n")
    ensures IsSecretName(value) ==> r.None?
  {
    var core := if |value| > 0 && value[|value| - 1] == '\n' then value[..|value| - 1] else value;
    if |core| >= 4 && core[..2] == "{{" && core[|core| - 2..] == "}}" && IsSecretName(core[2..|core| - 2])
    then
      assert core == core[..2] + core[2..|core| - 2] + core[|core| - 2..];
      assert core != value ==> value == core + "\n";
      Some(core[2..|core| - 2])
    else None
  }

  /** The pattern matches exactly the placeholders of valid names, with or
      without one trailing newline, and yields the name. */
  lemma SecretNameCharacterised(value: string, name: string)
    ensures SecretName(value) == Some(name) <==>
              IsSecretName(name) && (value == Placeholder(name) || value == Placeholder(name) + "\n")
  {
    if IsSecretName(name) && value == Placeholder(name) {
      assert value[..2] == "{{" && value[2..|value| - 2] == name && value[|value| - 2..] == "}}";
    }
    if IsSecretName(name) && value == Placeholder(name) + "\n" {
      var core := value[..|value| - 1];
      assert core == Placeholder(name);
      assert core[..2] == "{{" && core[2..|core| - 2] == name && core[|core| - 2..] == "}}";
    }
    if SecretName(value) == Some(name) {
      var core := if |value| > 0 && value[|value| - 1] == '\n' then value[..|value| - 1] else value;
      assert core == core[..2] + core[2..|core| - 2] + core[|core| - 2..];
      if |value| > 0 && value[|value| - 1] == '\n' {
        assert value == core + "\n";
      }
    }
  }

  /** `_replace_secrets`: a string that is a placeholder of a variable set to a
      non-empty value becomes that value; everything else comes back as it was,
      including dicts, whose strings are not substituted. */
  function ReplaceSecrets(value: Json, env: Environment): (r: Json)
    ensures !value.JStr? ==> r == value
    ensures r != value ==> value.JStr? && SecretName(value.s).Some?
    ensures value.JStr? && SecretName(value.s).Some? ==>
              var name := SecretName(value.s).value;
              r == (if name in env && |env[name]| > 0 then JStr(env[name]) else value)
  {
    match value
    case JStr(s) =>
      (match SecretName(s)
       case Some(name) => if name in env && |env[name]| > 0 then JStr(env[name]) else value
       case None => value)
    case _ => value
  }

  // ---------------------------------------------------------------------------
  // Dotted keys

  /** The text before the first "." (all of `s` when it has none). */
  function FirstSegment(s: string): (r: string)
    ensures r <= s && '.' !in r
    ensures |r| < |s| ==> s[|r|] == '.'
  {
    if |s| == 0 || s[0] == '.' then "" else [s[0]] + FirstSegment(s[1..])
  }

  /** `s.split(".")`. */
  function Split(s: string): (parts: seq<string>)
    ensures |parts| >= 1 && parts[0] == FirstSegment(s)
    ensures forall i | 0 <= i < |parts| :: '.' !in parts[i]
    decreases |s|
  {
    var first := FirstSegment(s);
    if |first| == |s| then [s] else [first] + Split(s[|first| + 1..])
  }

  /** `".".join(parts)`. */
  function Join(parts: seq<string>): string {
    if |parts| == 0 then ""
    else if |parts| == 1 then parts[0]
    else parts[0] + "." + Join(parts[1..])
  }

  /** Splitting on dots and joining with dots gives the key back; a key with a
      dot is its first segment, a dot, and the joined rest. */
  lemma {:induction false} JoinSplit(s: string)
    ensures Join(Split(s)) == s
    ensures |Split(s)| >= 2 ==> s == Split(s)[0] + "." + Join(Split(s)[1..])
    ensures |Split(s)| == 1 ==> Split(s)[0] == s
    decreases |s|
  {
    var first := FirstSegment(s);
    if |first| < |s| {
      var rest := s[|first| + 1..];
      JoinSplit(rest);
      SplitOfDotted(s, first, rest);
    }
  }

  /** One step of `Join(Split(s))` at the first dot. */
  lemma SplitOfDotted(s: string, first: string, rest: string)
    requires first == FirstSegment(s) && |first| < |s| && rest == s[|first| + 1..]
    requires Join(Split(rest)) == rest
    ensures |Split(s)| >= 2 && Split(s)[1..] == Split(rest)
    ensures s == first + "." + rest
    ensures Join(Split(s)) == s
  {
    var parts := Split(s);
    assert parts == [first] + Split(rest);
    assert parts[1..] == Split(rest);
    assert s == s[..|first|] + [s[|first|]] + rest;
  }

  // ---------------------------------------------------------------------------
  // Lookups

  /** The inner `search` of `_Config.get`. A key present at this level wins;
      otherwise the first segment must be present and the rest is searched in
      its value. `in` and `[]` behave as on the value actually met, so strings
      and lists on the way raise TypeError or AttributeError, never KeyError. */
  function Search(obj: Json, key: string, env: Environment): (r: Result<Json>)
    ensures r.Raised? ==> r.exc.AttributeError? || r.exc.TypeError?
    ensures r.Raised? && r.exc.AttributeError? ==> NamesMissingSegment(r.exc.message)
    decreases |key|
  {
    var present :- Contains(obj, key);
    if present then
      var v :- Subscript(obj, key);
      Ok(ReplaceSecrets(v, env))
    else
      var keys := Split(key);
      // `obj` is a dict, string or list here, so this membership test succeeds too
      var firstPresent := Contains(obj, keys[0]).value;
      if !firstPresent then Raised(AttributeError(keys[0] + MissingSuffix))
      else
        var child :- Subscript(obj, keys[0]);
        JoinSplit(key);
        Search(child, Join(keys[1..]), env)
  }

  /** The form of the message raised for a missing segment: "<segment> was not found". */
  predicate NamesMissingSegment(message: string) {
    |message| >= |MissingSuffix| && message[|message| - |MissingSuffix|..] == MissingSuffix
  }

  const MissingSuffix: string := " was not found"

  /** `_Config.get(name)` on the active section. */
  function Get(section: Json, name: string, env: Environment): (r: Result<Json>)
    ensures section.JObj? && name in section.fields ==> r == Ok(ReplaceSecrets(section.fields[name], env))
    ensures r.Raised? ==> r.exc.AttributeError? || r.exc.TypeError?
  {
    Search(section, name, env)
  }

  /** `_Config.__getattr__(name)`: a top-level entry only, substituted; a missing
      one raises KeyError. */
  function Attr(section: Json, name: string, env: Environment): (r: Result<Json>)
    ensures section.JObj? ==> (r.Ok? <==> name in section.fields)
    ensures r.Ok? ==> section.JObj? && name in section.fields && r.value == ReplaceSecrets(section.fields[name], env)
    ensures section.JObj? && name !in section.fields ==> r == Raised(KeyError(name))
    ensures !section.JObj? ==> r.Raised? && r.exc.TypeError?
  {
    var v :- Subscript(section, name);
    Ok(ReplaceSecrets(v, env))
  }

  // ---------------------------------------------------------------------------
  // Laws of the lookup

  /** An exact key at the current level is returned before any splitting. */
  lemma ExactKeyWins(fields: map<string, Json>, key: string, env: Environment)
    requires key in fields
    ensures Search(JObj(fields), key, env) == Ok(ReplaceSecrets(fields[key], env))
  {
  }

  /** Without an exact key, the lookup descends one segment: `get("a.b.c")` is
      `search(obj["a"], "b.c")`. */
  lemma DescendOneSegment(fields: map<string, Json>, first: string, rest: string, env: Environment)
    requires '.' !in first
    requires first + "." + rest !in fields && first in fields
    ensures Search(JObj(fields), first + "." + rest, env) == Search(fields[first], rest, env)
  {
    var key := first + "." + rest;
    assert FirstSegment(key) == first by {
      FirstSegmentOfDotted(first, rest);
    }
    JoinSplit(key);
    assert Join(Split(key)[1..]) == rest;
  }

  lemma {:induction false} FirstSegmentOfDotted(first: string, rest: string)
    requires '.' !in first
    ensures FirstSegment(first + "." + rest) == first
    decreases |first|
  {
    var key := first + "." + rest;
    if |first| > 0 {
      assert key[1..] == first[1..] + "." + rest;
      FirstSegmentOfDotted(first[1..], rest);
      assert first == [first[0]] + first[1..];
    }
  }

  /** A missing first segment raises AttributeError naming it. */
  lemma MissingFirstSegment(fields: map<string, Json>, key: string, env: Environment)
    requires key !in fields && FirstSegment(key) !in fields
    ensures Search(JObj(fields), key, env) == Raised(AttributeError(FirstSegment(key) + " was not found"))
  {
  }

  /** Attribute access and `get` agree on top-level keys, but attribute access
      never splits: a dotted name that is not itself a key raises KeyError. */
  lemma AttrIsTopLevelGet(fields: map<string, Json>, name: string, env: Environment)
    ensures name in fields ==> Attr(JObj(fields), name, env) == Get(JObj(fields), name, env)
    ensures name !in fields ==> Attr(JObj(fields), name, env) == Raised(KeyError(name))
  {
  }

  /** A sub-map comes back as it is stored: placeholders inside it stay. */
  lemma SubMapsAreNotSubstituted(fields: map<string, Json>, key: string, env: Environment)
    requires key in fields && fields[key].JObj?
    ensures Get(JObj(fields), key, env) == Ok(fields[key])
  {
  }

  // ---------------------------------------------------------------------------
  // The documented examples

  /** `get("app.name")` finds the nested name. */
  lemma NestedLookupExample(section: Json, env: Environment)
    requires section == JObj(map["app" := JObj(map["name" := JStr("coopcontrol")])])
    ensures Get(section, "app.name", env) == Ok(JStr("coopcontrol"))
  {
    assert "app.name" == "app" + "." + "name";
    DescendOneSegment(section.fields, "app", "name", env);
    ExactKeyWins(section.fields["app"].fields, "name", env);
  }

  /** Attribute access cannot see a dotted name. */
  lemma DottedAttrExample(section: Json, env: Environment)
    requires section == JObj(map["app" := JObj(map["name" := JStr("coopcontrol")])])
    ensures Attr(section, "app.name", env) == Raised(KeyError("app.name"))
  {
    assert "app.name" != "app";
  }

  /** A secret resolves from a set variable and stays a placeholder otherwise. */
  lemma SecretExample(section: Json, env: Environment)
    requires section == JObj(map["api_key" := JStr("{{API_KEY}}")])
    ensures "API_KEY" in env && env["API_KEY"] == "s3cret" ==> Get(section, "api_key", env) == Ok(JStr("s3cret"))
    ensures "API_KEY" !in env ==> Get(section, "api_key", env) == Ok(JStr("{{API_KEY}}"))
  {
    var name := "API_KEY";
    assert IsSecretName(name);
    assert "{{API_KEY}}" == Placeholder(name);
    SecretNameCharacterised("{{API_KEY}}", name);
  }

  /** A string met on the way is searched with `in` as a substring and then
      indexed: a key it contains raises TypeError, one it lacks AttributeError. */
  lemma StringOnTheWay(env: Environment)
    ensures Search(JStr("abc"), "b", env).Raised? && Search(JStr("abc"), "b", env).exc.TypeError?
    ensures Search(JStr("abc"), "x", env) == Raised(AttributeError("x was not found"))
  {
    assert IsSubstring("b", "abc") by {
      assert "b" <= "abc"[1..];
    }
    assert !IsSubstring("x", "abc") by {
      SingleCharSubstring('x', "abc");
    }
    assert FirstSegment("x") == "x";
    assert Split("x") == ["x"];
  }

  /** A one-character key is a substring exactly when the character occurs. */
  lemma {:induction false} SingleCharSubstring(c: char, s: string)
    ensures IsSubstring([c], s) <==> c in s
    decreases |s|
  {
    if |s| > 0 {
      SingleCharSubstring(c, s[1..]);
      assert s == [s[0]] + s[1..];
    }
  }
}
