/** The include/exclude rules of one subreddit entry: `matches` in app.py. */
module Matching {
  import opened Text

  /** `SubredditConfig`: four term lists, each of which may also be null
      (YAML `~`). A null list and an empty list both switch that rule off. */
  datatype SubredditConfig = SubredditConfig(
    title: Option<seq<string>>,
    notTitle: Option<seq<string>>,
    flair: Option<seq<string>>,
    notFlair: Option<seq<string>>)

  /** The terms of a list; a null list has none. */
  function Terms(l: Option<seq<string>>): seq<string> {
    if l.Some? then l.value else []
  }

  /** The text of a flair; an absent flair reads as the empty string, which
      Python treats as false just like None. */
  function FlairText(f: Option<string>): string {
    if f.Some? then f.value else ""
  }

  /** `any(term.lower() in title.lower() for term in terms)`. */
  function AnyTermIn(terms: seq<string>, title: string): (r: bool)
    ensures r <==> exists k :: 0 <= k < |terms| && IsSubstring(Lower(terms[k]), Lower(title))
  {
    if terms == [] then false
    else IsSubstring(Lower(terms[0]), Lower(title)) || AnyTermIn(terms[1..], title)
  }

  /** `any(term.lower() == flair.lower() for term in terms)`. */
  function AnyTermIs(terms: seq<string>, flair: string): (r: bool)
    ensures r <==> exists k :: 0 <= k < |terms| && Lower(terms[k]) == Lower(flair)
  {
    if terms == [] then false
    else Lower(terms[0]) == Lower(flair) || AnyTermIs(terms[1..], flair)
  }

  /** `matches(config, title, flair)`: the four rules in order, each able
      only to reject. */
  function Matches(config: SubredditConfig, title: string, flair: Option<string>): (r: bool)
    // include title: some term must occur in the title
    ensures r ==> |Terms(config.title)| == 0 || AnyTermIn(Terms(config.title), title)
    // exclude title: no term may occur in the title
    ensures r ==> !AnyTermIn(Terms(config.notTitle), title)
    // the flair rules apply only to a present, non-empty flair
    ensures r && FlairText(flair) != "" ==>
      (|Terms(config.flair)| == 0 || AnyTermIs(Terms(config.flair), FlairText(flair)))
      && !AnyTermIs(Terms(config.notFlair), FlairText(flair))
    // and nothing else rejects
    ensures !r ==>
      (|Terms(config.title)| > 0 && !AnyTermIn(Terms(config.title), title))
      || AnyTermIn(Terms(config.notTitle), title)
      || (FlairText(flair) != "" && |Terms(config.flair)| > 0 && !AnyTermIs(Terms(config.flair), FlairText(flair)))
      || (FlairText(flair) != "" && AnyTermIs(Terms(config.notFlair), FlairText(flair)))
  {
    if |Terms(config.title)| > 0 && !AnyTermIn(Terms(config.title), title) then false
    else if |Terms(config.notTitle)| > 0 && AnyTermIn(Terms(config.notTitle), title) then false
    else if |Terms(config.flair)| > 0 && FlairText(flair) != ""
            && !AnyTermIs(Terms(config.flair), FlairText(flair)) then false
    else if |Terms(config.notFlair)| > 0 && FlairText(flair) != ""
            && AnyTermIs(Terms(config.notFlair), FlairText(flair)) then false
    else true
  }

  /** A non-empty include-title list with no term in the title rejects. */
  lemma RejectsWithoutTitleTerm(config: SubredditConfig, title: string, flair: Option<string>)
    requires |Terms(config.title)| > 0
    requires forall k :: 0 <= k < |Terms(config.title)| ==>
      !IsSubstring(Lower(Terms(config.title)[k]), Lower(title))
    ensures !Matches(config, title, flair)
  {
  }

  /** Any exclude-title term occurring in the title rejects. */
  lemma RejectsExcludedTitleTerm(config: SubredditConfig, title: string, flair: Option<string>, k: nat)
    requires k < |Terms(config.notTitle)|
    requires IsSubstring(Lower(Terms(config.notTitle)[k]), Lower(title))
    ensures !Matches(config, title, flair)
  {
  }

  /** An absent or empty flair leaves the decision to the title rules alone,
      whatever the flair lists hold. */
  lemma AbsentFlairIgnoresFlairRules(config: SubredditConfig, title: string, flair: Option<string>)
    requires flair == None || flair == Some("")
    ensures Matches(config, title, flair) ==
      Matches(SubredditConfig(config.title, config.notTitle, None, None), title, None)
    ensures Matches(config, title, flair) <==>
      (|Terms(config.title)| == 0 || AnyTermIn(Terms(config.title), title))
      && !AnyTermIn(Terms(config.notTitle), title)
  {
  }

  /** With a present flair, a non-empty include-flair list needs a term equal
      to the flair up to case, and an exclude-flair term equal to it rejects. */
  lemma PresentFlairRules(config: SubredditConfig, title: string, f: string)
    requires f != ""
    ensures |Terms(config.flair)| > 0
      && (forall k :: 0 <= k < |Terms(config.flair)| ==> Lower(Terms(config.flair)[k]) != Lower(f))
      ==> !Matches(config, title, Some(f))
    ensures (exists k :: 0 <= k < |Terms(config.notFlair)| && Lower(Terms(config.notFlair)[k]) == Lower(f))
      ==> !Matches(config, title, Some(f))
  {
  }

  /** With every list empty or null, everything matches. */
  lemma NoRulesMatchAll(config: SubredditConfig, title: string, flair: Option<string>)
    requires Terms(config.title) == [] && Terms(config.notTitle) == []
    requires Terms(config.flair) == [] && Terms(config.notFlair) == []
    ensures Matches(config, title, flair)
  {
  }

  /** Two term lists that are equal up to letter case, term by term. */
  predicate SameCaseTerms(a: Option<seq<string>>, b: Option<seq<string>>) {
    |Terms(a)| == |Terms(b)|
    && forall k :: 0 <= k < |Terms(a)| ==> SameCase(Terms(a)[k], Terms(b)[k])
  }

  predicate SameCaseConfig(a: SubredditConfig, b: SubredditConfig) {
    SameCaseTerms(a.title, b.title) && SameCaseTerms(a.notTitle, b.notTitle)
    && SameCaseTerms(a.flair, b.flair) && SameCaseTerms(a.notFlair, b.notFlair)
  }

  /** Changing the letter case of the title, the flair or any term never
      changes the outcome. */
  lemma MatchesIgnoresCase(c: SubredditConfig, d: SubredditConfig, t: string, u: string,
                           f: Option<string>, g: Option<string>)
    requires SameCaseConfig(c, d) && SameCase(t, u) && SameCase(FlairText(f), FlairText(g))
    ensures Matches(c, t, f) == Matches(d, u, g)
  {
  }

  /** A title term matches regardless of case: ["sale"] accepts "Big SALE today". */
  lemma SaleScenario()
    ensures Matches(SubredditConfig(Some(["sale"]), Some([]), Some([]), Some([])), "Big SALE today", None)
  {
    assert Lower("Big SALE today")[4..8] == "sale";
    assert OccursAt("sale", Lower("Big SALE today"), 4);
    assert Lower("sale") == "sale";
    assert AnyTermIn(["sale"], "Big SALE today");
  }

  /** An exclude-flair term equal up to case rejects: ["spoiler"] rejects "Spoiler". */
  lemma SpoilerScenario(title: string)
    ensures !Matches(SubredditConfig(Some([]), Some([]), Some([]), Some(["spoiler"])), title, Some("Spoiler"))
  {
  }
}
