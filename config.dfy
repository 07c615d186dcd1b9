/** `Config.Replace` of config/config.go: substituting the values of the `App`
    section of the configuration into static files, where each field `F` is
    written `{{F}}`. */
module AppConfig {

  newtype byte = x: int | 0 <= x < 256

  type bytes = seq<byte>

  /** The `App` section: the base URL the static files should point at. */
  datatype App = App(baseURL: bytes)

  /** The `HTTP` section; its fields are not substituted. */
  datatype Http = Http(port: bytes)

  /** The `Log` and `PostgreSQL` sections are not read by `Replace` and are
      left out of the value. */
  datatype Config = Config(app: App, http: Http)
  {
    /** `Replace`: starting from the input, each field of `App` in declaration
        order replaces every occurrence of its placeholder by its value; the
        input itself is not changed. */
    method Replace(input: bytes) returns (output: bytes)
      ensures output == ReplaceFields(input, AppFields(app))
    {
      var fields := AppFields(app);
      output := input;
      var i := 0;
      while i < |fields|
        invariant 0 <= i <= |fields|
        invariant output == ReplaceFields(input, fields[..i])
      {
        assert fields[..i + 1][..i] == fields[..i];
        output := ReplaceAll(output, Placeholder(fields[i].name), fields[i].value);
        i := i + 1;
      }
      assert fields[..|fields|] == fields;
    }
  }

  /** A field of a section, by its Go name and its value. */
  datatype Field = Field(name: bytes, value: bytes)

  /** "BaseURL" in ASCII. */
  const BaseURLName: bytes := [66, 97, 115, 101, 85, 82, 76]

  /** "Port" in ASCII. */
  const PortName: bytes := [80, 111, 114, 116]

  /** The fields of `App` as reflection lists them. */
  function AppFields(app: App): seq<Field>
  {
    [Field(BaseURLName, app.baseURL)]
  }

  /** `{{name}}`: "{{", the name, "}}". */
  function Placeholder(name: bytes): (p: bytes)
    ensures |p| == |name| + 4
  {
    [123, 123] + name + [125, 125]
  }

  /** `pat` occurs in `s` starting at index `i`. */
  predicate OccursAt(pat: bytes, s: bytes, i: int)
  {
    0 <= i && i + |pat| <= |s| && s[i..i + |pat|] == pat
  }

  /** `pat` occurs in `s`. */
  ghost predicate Occurs(pat: bytes, s: bytes)
  {
    exists i :: OccursAt(pat, s, i)
  }

  /** `bytes.Replace(s, pat, rep, -1)` for a non-empty `pat`: scanning from the
      left, each occurrence of `pat` that does not overlap an earlier replaced
      one becomes `rep`. */
  function ReplaceAll(s: bytes, pat: bytes, rep: bytes): bytes
    requires |pat| > 0
    decreases |s|
  {
    if |s| < |pat| then s
    else if s[..|pat|] == pat then rep + ReplaceAll(s[|pat|..], pat, rep)
    else [s[0]] + ReplaceAll(s[1..], pat, rep)
  }

  /** The passes of `Replace` over the first fields, the last pass last. */
  function ReplaceFields(input: bytes, fields: seq<Field>): bytes
    decreases |fields|
  {
    if fields == [] then input
    else
      var last := fields[|fields| - 1];
      ReplaceAll(ReplaceFields(input, fields[..|fields| - 1]), Placeholder(last.name), last.value)
  }

  // ---------------------------------------------------------------- ReplaceAll

  /** A string holding no occurrence of the pattern is left as it is, and a
      string that changes held one. */
  lemma {:induction false} ReplaceAbsent(s: bytes, pat: bytes, rep: bytes)
    requires |pat| > 0
    ensures !Occurs(pat, s) ==> ReplaceAll(s, pat, rep) == s
    decreases |s|
  {
    if !Occurs(pat, s) && |s| >= |pat| {
      assert !OccursAt(pat, s, 0);
      assert s[0..0 + |pat|] == s[..|pat|];
      OccursInTail(pat, s);
      ReplaceAbsent(s[1..], pat, rep);
      assert [s[0]] + s[1..] == s;
    }
  }

  /** Replacing the pattern by itself changes nothing. */
  lemma {:induction false} ReplaceBySelf(s: bytes, pat: bytes)
    requires |pat| > 0
    ensures ReplaceAll(s, pat, pat) == s
    decreases |s|
  {
    if |s| >= |pat| {
      if s[..|pat|] == pat {
        ReplaceBySelf(s[|pat|..], pat);
        assert s[..|pat|] + s[|pat|..] == s;
      } else {
        ReplaceBySelf(s[1..], pat);
        assert [s[0]] + s[1..] == s;
      }
    }
  }

  /** An occurrence after the first byte is an occurrence. */
  lemma OccursInTail(pat: bytes, s: bytes)
    requires |s| > 0
    ensures Occurs(pat, s[1..]) ==> Occurs(pat, s)
  {
    if Occurs(pat, s[1..]) {
      var i :| OccursAt(pat, s[1..], i);
      assert s[1..][i..i + |pat|] == s[i + 1..i + 1 + |pat|];
      assert OccursAt(pat, s, i + 1);
    }
  }

  /** The leftmost occurrence is replaced and the scan resumes after it: when
      the first occurrence of `pat` in `a + pat + b` starts right after `a`,
      the text before it is kept and the rest is scanned on its own. */
  lemma {:induction false} ReplaceLeftmost(a: bytes, pat: bytes, rep: bytes, b: bytes)
    requires |pat| > 0
    requires !Occurs(pat, a + pat[..|pat| - 1])
    ensures ReplaceAll(a + pat + b, pat, rep) == a + rep + ReplaceAll(b, pat, rep)
    decreases |a|
  {
    var s := a + pat + b;
    if a == [] {
      assert s == pat + b;
      assert s[..|pat|] == pat;
      assert s[|pat|..] == b;
    } else {
      var w := a + pat[..|pat| - 1];
      assert s[..|pat|] != pat by {
        assert !OccursAt(pat, w, 0);
        assert s[..|pat|] == w[0..0 + |pat|];
      }
      OccursInTail(pat, w);
      assert a[1..] + pat[..|pat| - 1] == w[1..];
      assert |s| >= |pat|;
      calc {
        ReplaceAll(s, pat, rep);
        [s[0]] + ReplaceAll(s[1..], pat, rep);
        { assert s[1..] == a[1..] + pat + b; }
        [a[0]] + ReplaceAll(a[1..] + pat + b, pat, rep);
        { ReplaceLeftmost(a[1..], pat, rep, b); }
        [a[0]] + (a[1..] + rep + ReplaceAll(b, pat, rep));
        { assert [a[0]] + a[1..] == a; }
        a + rep + ReplaceAll(b, pat, rep);
      }
    }
  }

  // ---------------------------------------------------------------- Replace

  /** Passes whose placeholders occur nowhere in the input leave it as it is. */
  lemma {:induction false} ReplaceFieldsAbsent(input: bytes, fields: seq<Field>)
    requires forall i :: 0 <= i < |fields| ==> !Occurs(Placeholder(fields[i].name), input)
    ensures ReplaceFields(input, fields) == input
    decreases |fields|
  {
    if fields != [] {
      var init := fields[..|fields| - 1];
      assert forall i :: 0 <= i < |init| ==> init[i] == fields[i];
      ReplaceFieldsAbsent(input, init);
      ReplaceAbsent(input, Placeholder(fields[|fields| - 1].name), fields[|fields| - 1].value);
    }
  }

  /** Only the placeholders of `App` are substituted: text without
      `{{BaseURL}}`, such as `{{Port}}` of the `HTTP` section, is served as it
      is. */
  lemma OnlyAppPlaceholders(config: Config, input: bytes)
    requires !Occurs(Placeholder(BaseURLName), input)
    ensures ReplaceFields(input, AppFields(config.app)) == input
  {
    ReplaceFieldsAbsent(input, AppFields(config.app));
  }

  /** `{{Port}}` is shorter than `{{BaseURL}}`, so it survives. */
  lemma PortPlaceholderSurvives(config: Config)
    ensures ReplaceFields(Placeholder(PortName), AppFields(config.app)) == Placeholder(PortName)
  {
    OnlyAppPlaceholders(config, Placeholder(PortName));
  }

  /** The first `{{BaseURL}}` becomes the configured base URL, the text before
      it is kept, and the text after it is substituted in the same way. */
  lemma BaseURLSubstituted(config: Config, before: bytes, after: bytes)
    requires !Occurs(Placeholder(BaseURLName), before + Placeholder(BaseURLName)[..|BaseURLName| + 3])
    ensures ReplaceFields(before + Placeholder(BaseURLName) + after, AppFields(config.app))
         == before + config.app.baseURL + ReplaceFields(after, AppFields(config.app))
  {
    var fields := AppFields(config.app);
    assert fields[..0] == [];
    ReplaceLeftmost(before, Placeholder(BaseURLName), config.app.baseURL, after);
  }

  /** A base URL of `{{BaseURL}}` itself gives back the input. */
  lemma SelfReferenceIsIdentity(input: bytes)
    ensures ReplaceFields(input, AppFields(App(Placeholder(BaseURLName)))) == input
  {
    var fields := AppFields(App(Placeholder(BaseURLName)));
    assert fields[..0] == [];
    ReplaceBySelf(input, Placeholder(BaseURLName));
  }
}
