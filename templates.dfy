/** `render_template` of app.py: `re.sub(r"\{(\w+)\}", replacer, template)`.

    The regular-expression scan is `Tokenize`, which cuts the template into
    single characters and `{NAME}` placeholders in one left-to-right pass;
    the `replacer` callback is `Replace`, and `Fill` applies it to every
    placeholder of the scan. Mapping values are already strings. */
module Templates {
  import opened Text

  datatype Segment = Char(c: char) | Placeholder(name: string)

  /** Length of the longest prefix of `s` made of word characters. */
  function WordPrefix(s: string): (n: nat)
    ensures n <= |s|
    ensures forall i :: 0 <= i < n ==> IsWordChar(s[i])
    ensures n < |s| ==> !IsWordChar(s[n])
  {
    if s != [] && IsWordChar(s[0]) then 1 + WordPrefix(s[1..]) else 0
  }

  /** The placeholder name when `\{(\w+)\}` matches at the start of `t`.
      The `\w+` is greedy and `}` is not a word character, so the match
      exists exactly when the longest word run after `{` is followed by `}`. */
  function TokenAt(t: string): (r: Option<string>)
    ensures r.Some? ==>
      (IsWord(r.value) && |r.value| + 2 <= |t| && t[..|r.value| + 2] == ['{'] + r.value + ['}'])
  {
    if |t| >= 3 && t[0] == '{' then
      var n := WordPrefix(t[1..]);
      if n >= 1 && n + 1 < |t| && t[n + 1] == '}' then
        assert t[..n + 2] == ['{'] + t[1..n + 1] + ['}'];
        Some(t[1..n + 1])
      else None
    else None
  }

  /** The converse: `{`, a word and `}` at the front always match, and the
      match names that word. */
  lemma TokenAtWord(name: string, rest: string)
    requires IsWord(name)
    ensures TokenAt(['{'] + name + ['}'] + rest) == Some(name)
  {
    var t := ['{'] + name + ['}'] + rest;
    assert t[1..] == name + (['}'] + rest);
    WordPrefixOfWord(name, ['}'] + rest);
    assert t[|name| + 1] == '}';
    assert t[1..|name| + 1] == name;
  }

  /** The text a segment stands for in the template. */
  function SegmentText(s: Segment): string {
    match s
    case Char(c) => [c]
    case Placeholder(name) => ['{'] + name + ['}']
  }

  function Untokenize(segs: seq<Segment>): string {
    if segs == [] then [] else SegmentText(segs[0]) + Untokenize(segs[1..])
  }

  /** Every placeholder carries a `\w+` name. */
  predicate WellFormed(segs: seq<Segment>) {
    forall k :: 0 <= k < |segs| && segs[k].Placeholder? ==> IsWord(segs[k].name)
  }

  /** The scan of `re.sub`: a match consumes the whole token, otherwise one
      character passes through. Its properties are the two lemmas below. */
  function Tokenize(t: string): seq<Segment>
    decreases |t|
  {
    if t == [] then []
    else
      match TokenAt(t)
      case Some(name) => [Placeholder(name)] + Tokenize(t[|name| + 2..])
      case None => [Char(t[0])] + Tokenize(t[1..])
  }

  /** `Untokenize` of one more segment at the front. */
  lemma UntokenizeCons(g: Segment, segs: seq<Segment>)
    ensures Untokenize([g] + segs) == SegmentText(g) + Untokenize(segs)
  {
    assert ([g] + segs)[1..] == segs;
  }

  /** Gluing the pieces of the scan back together gives the template. */
  lemma {:induction false} TokenizeRoundTrip(t: string)
    ensures Untokenize(Tokenize(t)) == t
    decreases |t|
  {
    if t != [] {
      match TokenAt(t)
      case Some(name) =>
        var head := t[..|name| + 2];
        var rest := t[|name| + 2..];
        assert Tokenize(t) == [Placeholder(name)] + Tokenize(rest);
        TokenizeRoundTrip(rest);
        UntokenizeCons(Placeholder(name), Tokenize(rest));
        assert SegmentText(Placeholder(name)) == head;
        assert t == head + rest;
      case None =>
        var rest := t[1..];
        assert Tokenize(t) == [Char(t[0])] + Tokenize(rest);
        TokenizeRoundTrip(rest);
        UntokenizeCons(Char(t[0]), Tokenize(rest));
        assert t == [t[0]] + rest;
    }
  }

  /** Every placeholder of the scan carries a `\w+` name. */
  lemma {:induction false} TokenizeWellFormed(t: string)
    ensures WellFormed(Tokenize(t))
    decreases |t|
  {
    if t != [] {
      var segs := Tokenize(t);
      var n := if TokenAt(t).Some? then |TokenAt(t).value| + 2 else 1;
      var rest := t[n..];
      assert segs[1..] == Tokenize(rest);
      TokenizeWellFormed(rest);
      forall k | 0 <= k < |segs| && segs[k].Placeholder? ensures IsWord(segs[k].name) {
        if k > 0 {
          assert segs[k] == Tokenize(rest)[k - 1];
        }
      }
    }
  }

  /** The replacer: a known key becomes its value, an unknown one is put back
      braces and all. */
  function Replace(name: string, mapping: map<string, string>): (r: string)
    ensures name in mapping ==> r == mapping[name]
    ensures name !in mapping ==> r == SegmentText(Placeholder(name))
  {
    if name in mapping then mapping[name] else ['{'] + name + ['}']
  }

  /** No placeholder of `segs` names a key of `mapping`. */
  predicate NoKnownKey(segs: seq<Segment>, mapping: map<string, string>) {
    forall k :: 0 <= k < |segs| && segs[k].Placeholder? ==> segs[k].name !in mapping
  }

  /** Substitutes every placeholder; substituted text is not scanned again. */
  function Fill(segs: seq<Segment>, mapping: map<string, string>): string {
    if segs == [] then []
    else
      match segs[0]
      case Char(c) => [c] + Fill(segs[1..], mapping)
      case Placeholder(name) => Replace(name, mapping) + Fill(segs[1..], mapping)
  }

  /** `render_template(template, mapping)`. */
  function Render(template: string, mapping: map<string, string>): string {
    Fill(Tokenize(template), mapping)
  }

  lemma {:induction false} FillUnknownIsIdentity(segs: seq<Segment>, mapping: map<string, string>)
    requires NoKnownKey(segs, mapping)
    ensures Fill(segs, mapping) == Untokenize(segs)
  {
    if segs != [] {
      assert NoKnownKey(segs[1..], mapping) by {
        forall k | 0 <= k < |segs[1..]| && segs[1..][k].Placeholder?
          ensures segs[1..][k].name !in mapping
        {
          assert segs[1..][k] == segs[k + 1];
        }
      }
      FillUnknownIsIdentity(segs[1..], mapping);
    }
  }

  /** Placeholders whose key is unknown are left verbatim: a template none of
      whose placeholders is a key renders to itself. */
  lemma RenderUnknownVerbatim(template: string, mapping: map<string, string>)
    requires NoKnownKey(Tokenize(template), mapping)
    ensures Render(template, mapping) == template
  {
    FillUnknownIsIdentity(Tokenize(template), mapping);
    TokenizeRoundTrip(template);
  }

  /** With an empty mapping every template renders to itself. */
  lemma RenderEmptyMapping(template: string)
    ensures Render(template, map[]) == template
  {
    RenderUnknownVerbatim(template, map[]);
  }

  lemma {:induction false} NoCloseBraceNoPlaceholder(t: string)
    requires '}' !in t
    ensures forall k :: 0 <= k < |Tokenize(t)| ==> Tokenize(t)[k].Char?
    decreases |t|
  {
    if t != [] {
      assert TokenAt(t).None?;
      assert '}' !in t[1..] by {
        forall i | 0 <= i < |t[1..]| ensures t[1..][i] != '}' {
          assert t[1..][i] == t[i + 1];
        }
      }
      NoCloseBraceNoPlaceholder(t[1..]);
    }
  }

  /** A template without a complete `{word}` token is returned unchanged: in
      particular any template without `}`, so a lone `{` passes through. */
  lemma RenderWithoutCloseBrace(template: string, mapping: map<string, string>)
    requires '}' !in template
    ensures Render(template, mapping) == template
  {
    NoCloseBraceNoPlaceholder(template);
    RenderUnknownVerbatim(template, mapping);
  }

  /** `{a-b}` is not a token: `-` is not a word character. */
  lemma RenderNonWordBraces(mapping: map<string, string>)
    ensures Render("{a-b}", mapping) == "{a-b}"
  {
    var t := "{a-b}";
    assert t[1..] == "a-b}" + [];
    assert WordPrefix(t[1..]) == 1 by {
      assert t[1..][0] == 'a' && !IsWordChar(t[1..][1]);
    }
    RenderUnmatched(t, mapping);
    RenderText("a-b}", [], mapping);
  }

  /** Where `\{(\w+)\}` does not match, one character passes through. */
  lemma RenderUnmatched(t: string, mapping: map<string, string>)
    requires t != [] && TokenAt(t).None?
    ensures Render(t, mapping) == [t[0]] + Render(t[1..], mapping)
  {
  }

  /** A character other than `{` passes through unchanged. */
  lemma RenderChar(c: char, rest: string, mapping: map<string, string>)
    requires c != '{'
    ensures Render([c] + rest, mapping) == [c] + Render(rest, mapping)
  {
  }

  /** A `{NAME}` token at the front is replaced, and scanning resumes right
      after its `}`: the replacement text is never rescanned. */
  lemma RenderPlaceholder(name: string, rest: string, mapping: map<string, string>)
    requires IsWord(name)
    ensures Render(['{'] + name + ['}'] + rest, mapping) == Replace(name, mapping) + Render(rest, mapping)
  {
    var t := ['{'] + name + ['}'] + rest;
    TokenAtWord(name, rest);
    assert t[|name| + 2..] == rest;
  }

  lemma {:induction false} WordPrefixOfWord(w: string, rest: string)
    requires forall i :: 0 <= i < |w| ==> IsWordChar(w[i])
    requires rest != [] && !IsWordChar(rest[0])
    ensures WordPrefix(w + rest) == |w|
  {
    if w != [] {
      assert (w + rest)[1..] == w[1..] + rest;
      WordPrefixOfWord(w[1..], rest);
    }
  }

  /** Substitution for a whole-token template: `{NAME}` renders to the value
      of NAME whatever that value contains. */
  lemma RenderSingle(name: string, mapping: map<string, string>)
    requires IsWord(name) && name in mapping
    ensures Render(['{'] + name + ['}'], mapping) == mapping[name]
  {
    RenderPlaceholder(name, [], mapping);
    assert ['{'] + name + ['}'] + [] == ['{'] + name + ['}'];
  }

  /** Two placeholders around a separator without braces: the shape of the
      default notification title and of `{TITLE} in {SOURCE}`. */
  lemma RenderPair(a: string, sep: string, b: string, mapping: map<string, string>)
    requires IsWord(a) && IsWord(b) && a in mapping && b in mapping
    requires '{' !in sep
    ensures Render(['{'] + a + ['}'] + sep + ['{'] + b + ['}'], mapping)
         == mapping[a] + sep + mapping[b]
  {
    var tail := ['{'] + b + ['}'];
    var t := ['{'] + a + ['}'] + sep + ['{'] + b + ['}'];
    assert t == ['{'] + a + ['}'] + (sep + tail);
    RenderPlaceholder(a, sep + tail, mapping);
    RenderText(sep, tail, mapping);
    RenderSingle(b, mapping);
  }

  lemma {:induction false} RenderText(s: string, rest: string, mapping: map<string, string>)
    requires '{' !in s
    ensures Render(s + rest, mapping) == s + Render(rest, mapping)
  {
    if s != [] {
      var t := s + rest;
      assert t[0] != '{';
      assert t[1..] == s[1..] + rest;
      RenderUnmatched(t, mapping);
      RenderText(s[1..], rest, mapping);
      var r := Render(rest, mapping);
      assert Render(t[1..], mapping) == s[1..] + r;
      assert Render(t, mapping) == [s[0]] + (s[1..] + r);
      assert [s[0]] + (s[1..] + r) == s + r;
    } else {
      assert s + rest == rest;
    }
  }

  /** `Render("{TITLE} in {SOURCE}", {TITLE: title, SOURCE: source})` is
      `title + " in " + source`; with `"Foo"` and `"bar"` that is `"Foo in bar"`. */
  lemma RenderExample(title: string, source: string)
    ensures Render("{TITLE} in {SOURCE}", map["TITLE" := title, "SOURCE" := source])
         == title + " in " + source
  {
    var m := map["TITLE" := title, "SOURCE" := source];
    RenderPairOf("{TITLE} in {SOURCE}", "TITLE", " in ", "SOURCE", m);
  }

  /** The literals arrive as parameters fixed by `requires`, so that the
      solver reasons about `Render` through `RenderPair` instead of unfolding
      it on a constant template. */
  lemma RenderPairOf(template: string, a: string, sep: string, b: string, mapping: map<string, string>)
    requires template == "{TITLE} in {SOURCE}"
    requires a == "TITLE" && sep == " in " && b == "SOURCE"
    requires a in mapping && b in mapping
    ensures Render(template, mapping) == mapping[a] + sep + mapping[b]
  {
    assert IsWord(a) && IsWord(b) && '{' !in sep;
    assert template == ['{'] + a + ['}'] + sep + ['{'] + b + ['}'];
    RenderPair(a, sep, b, mapping);
  }
}
