/** Routing a submission to notifications (app.py): `process_submission`,
    `notify` and the combined subreddit name built by `stream_submissions`.
    The Apprise client is a sink that records every (title, body) call. */
module Notifier {
  import opened Text
  import opened Matching
  import opened Templates

  /** The fields of a praw submission that the core reads. */
  datatype Submission = Submission(
    title: string,
    flair: Option<string>,   // link_flair_text
    subreddit: string,       // subreddit.display_name
    permalink: string)

  /** One entry of one dictionary of the `subreddits` list. */
  type Entry = (string, SubredditConfig)

  /** `RedditConfig`, without the credentials. `subreddits` is a list of
      dictionaries, each an ordered list of (name, rules) entries. */
  datatype RedditConfig = RedditConfig(
    notificationTitle: string,
    notificationBody: string,
    subreddits: seq<seq<Entry>>)

  const DefaultTitleTemplate: string := "{SUBREDDIT} - {TITLE}"
  const DefaultBodyTemplate: string := "{URL}"
  const RedditUrl: string := "https://www.reddit.com"

  datatype Notification = Notification(title: string, body: string)

  /** The Apprise client: every `notify` call is recorded in order. */
  class Sink {
    var sent: seq<Notification>

    constructor ()
      ensures sent == []
    {
      sent := [];
    }

    method Send(title: string, body: string)
      modifies this
      ensures sent == old(sent) + [Notification(title, body)]
    {
      sent := sent + [Notification(title, body)];
    }
  }

  /** The placeholder values `notify` offers. */
  function Mapping(s: Submission): (m: map<string, string>)
    ensures m.Keys == {"TITLE", "SUBREDDIT", "URL", "FLAIR"}
    ensures m["TITLE"] == s.title && m["SUBREDDIT"] == s.subreddit
    ensures m["URL"] == RedditUrl + s.permalink
    ensures m["FLAIR"] == if s.flair.Some? then s.flair.value else ""
  {
    map["TITLE" := s.title,
        "SUBREDDIT" := s.subreddit,
        "URL" := RedditUrl + s.permalink,
        "FLAIR" := FlairText(s.flair)]
  }

  /** What `notify` sends for a submission. A template without any `}`
      holds no placeholder and is sent as written. */
  function Message(config: RedditConfig, s: Submission): (n: Notification)
    ensures '}' !in config.notificationTitle ==> n.title == config.notificationTitle
    ensures '}' !in config.notificationBody ==> n.body == config.notificationBody
  {
    var m := Mapping(s);
    assert '}' !in config.notificationTitle ==> Render(config.notificationTitle, m) == config.notificationTitle by {
      if '}' !in config.notificationTitle {
        RenderWithoutCloseBrace(config.notificationTitle, m);
      }
    }
    assert '}' !in config.notificationBody ==> Render(config.notificationBody, m) == config.notificationBody by {
      if '}' !in config.notificationBody {
        RenderWithoutCloseBrace(config.notificationBody, m);
      }
    }
    Notification(Render(config.notificationTitle, m), Render(config.notificationBody, m))
  }

  /** `notify`: render both templates and hand them to the sink. */
  method Notify(sink: Sink, config: RedditConfig, s: Submission)
    modifies sink
    ensures sink.sent == old(sink.sent) + [Message(config, s)]
  {
    var mapping := Mapping(s);
    var title := Render(config.notificationTitle, mapping);
    var body := Render(config.notificationBody, mapping);
    sink.Send(title, body);
  }

  /** An entry fires for a submission when its name equals the submission's
      subreddit up to case and its rules match. */
  predicate Fires(s: Submission, e: Entry): (r: bool)
    // an entry for another subreddit never fires
    ensures !SameCase(s.subreddit, e.0) ==> !r
    // an entry without rules fires for every post of its subreddit
    ensures (SameCase(s.subreddit, e.0) && Terms(e.1.title) == [] && Terms(e.1.notTitle) == []
             && Terms(e.1.flair) == [] && Terms(e.1.notFlair) == []) ==> r
  {
    Lower(s.subreddit) == Lower(e.0) && Matches(e.1, s.title, s.flair)
  }

  /** Some entry of some dictionary fires. */
  ghost predicate AnyFires(s: Submission, subs: seq<seq<Entry>>) {
    exists a, b :: 0 <= a < |subs| && 0 <= b < |subs[a]| && Fires(s, subs[a][b])
  }

  /** Some entry of the first `a` dictionaries, or among the first `b`
      entries of dictionary `a`, fires. */
  ghost predicate FiresBefore(s: Submission, subs: seq<seq<Entry>>, a: int, b: int)
    requires 0 <= a <= |subs|
    requires a < |subs| ==> 0 <= b <= |subs[a]|
  {
    (exists a', b' :: 0 <= a' < a && 0 <= b' < |subs[a']| && Fires(s, subs[a'][b']))
    || (a < |subs| && exists b' :: 0 <= b' < b && Fires(s, subs[a][b']))
  }

  /** `process_submission`: walk every entry in configuration order and
      notify once, for the first entry that fires; later entries are still
      visited but `processed` stops them from notifying again. */
  method ProcessSubmission(s: Submission, config: RedditConfig, sink: Sink)
    modifies sink
    ensures sink.sent == old(sink.sent) +
      (if AnyFires(s, config.subreddits) then [Message(config, s)] else [])
  {
    var subs := config.subreddits;
    var processed := false;
    var a := 0;
    while a < |subs|
      invariant 0 <= a <= |subs|
      invariant processed <==> FiresBefore(s, subs, a, 0)
      invariant sink.sent == old(sink.sent) + (if processed then [Message(config, s)] else [])
    {
      var b := 0;
      while b < |subs[a]|
        invariant 0 <= b <= |subs[a]|
        invariant processed <==> FiresBefore(s, subs, a, b)
        invariant sink.sent == old(sink.sent) + (if processed then [Message(config, s)] else [])
      {
        var (name, rules) := subs[a][b];
        FiresBeforeEntry(s, subs, a, b);
        if Lower(s.subreddit) == Lower(name) && !processed && Matches(rules, s.title, s.flair) {
          processed := true;
          Notify(sink, config, s);
        }
        b := b + 1;
      }
      FiresBeforeDictionary(s, subs, a);
      a := a + 1;
    }
    FiresBeforeAll(s, subs);
  }

  /** One more entry of dictionary `a` has been visited. */
  lemma FiresBeforeEntry(s: Submission, subs: seq<seq<Entry>>, a: int, b: int)
    requires 0 <= a < |subs| && 0 <= b < |subs[a]|
    ensures FiresBefore(s, subs, a, b + 1) <==> FiresBefore(s, subs, a, b) || Fires(s, subs[a][b])
  {
  }

  /** Dictionary `a` has been visited in full. */
  lemma FiresBeforeDictionary(s: Submission, subs: seq<seq<Entry>>, a: int)
    requires 0 <= a < |subs|
    ensures FiresBefore(s, subs, a + 1, 0) <==> FiresBefore(s, subs, a, |subs[a]|)
  {
  }

  /** Every dictionary has been visited. */
  lemma FiresBeforeAll(s: Submission, subs: seq<seq<Entry>>)
    ensures FiresBefore(s, subs, |subs|, 0) <==> AnyFires(s, subs)
  {
  }

  /** The subreddit of a submission is compared without regard to case:
      two submissions differing only there fire the same entries. */
  lemma AnyFiresIgnoresSubredditCase(s: Submission, t: Submission, subs: seq<seq<Entry>>)
    requires s.title == t.title && s.flair == t.flair
    requires SameCase(s.subreddit, t.subreddit)
    ensures AnyFires(s, subs) <==> AnyFires(t, subs)
  {
  }

  /** Nothing outside `process_submission` remembers a submission: handing
      it over twice, as a redelivering stream would, notifies twice. */
  method DeliveredTwice(s: Submission, config: RedditConfig, sink: Sink)
    requires AnyFires(s, config.subreddits)
    modifies sink
    ensures sink.sent == old(sink.sent) + [Message(config, s), Message(config, s)]
  {
    ProcessSubmission(s, config, sink);
    ProcessSubmission(s, config, sink);
  }

  /** With the default templates the title is "<subreddit> - <title>" and the
      body the full post URL, whatever the post's text contains. */
  lemma DefaultMessage(config: RedditConfig, s: Submission)
    requires config.notificationTitle == DefaultTitleTemplate
    requires config.notificationBody == DefaultBodyTemplate
    ensures Message(config, s) == Notification(s.subreddit + " - " + s.title, RedditUrl + s.permalink)
  {
    var m := Mapping(s);
    DefaultTitle(config.notificationTitle, "SUBREDDIT", " - ", "TITLE", m);
    DefaultBody(config.notificationBody, "URL", m);
  }

  /** The literals arrive as parameters fixed by `requires`, so that the
      solver reasons about `Render` through `RenderPair` instead of unfolding
      it on a constant template; so for `DefaultBody`. */
  lemma DefaultTitle(template: string, a: string, sep: string, b: string, mapping: map<string, string>)
    requires template == DefaultTitleTemplate
    requires a == "SUBREDDIT" && sep == " - " && b == "TITLE"
    requires a in mapping && b in mapping
    ensures Render(template, mapping) == mapping[a] + sep + mapping[b]
  {
    assert IsWord(a) && IsWord(b) && '{' !in sep;
    assert template == ['{'] + a + ['}'] + sep + ['{'] + b + ['}'];
    RenderPair(a, sep, b, mapping);
  }

  lemma DefaultBody(template: string, key: string, mapping: map<string, string>)
    requires template == DefaultBodyTemplate && key == "URL"
    requires key in mapping
    ensures Render(template, mapping) == mapping[key]
  {
    assert IsWord(key);
    assert template == ['{'] + key + ['}'];
    RenderSingle(key, mapping);
  }

  /** An absent flair is offered as the empty string. */
  lemma AbsentFlairRendersEmpty(s: Submission)
    requires s.flair == None
    ensures Render("{FLAIR}", Mapping(s)) == ""
  {
    assert "{FLAIR}" == ['{'] + "FLAIR" + ['}'];
    assert IsWord("FLAIR");
    RenderSingle("FLAIR", Mapping(s));
  }

  /** The number of entries over all dictionaries. */
  function EntryCount(subs: seq<seq<Entry>>): nat
    decreases |subs|
  {
    if subs == [] then 0 else EntryCount(subs[..|subs| - 1]) + |subs[|subs| - 1]|
  }

  /** The names of all entries, in configuration order: one per entry. */
  function Names(subs: seq<seq<Entry>>): (r: seq<string>)
    ensures |r| == EntryCount(subs)
    decreases |subs|
  {
    if subs == [] then []
    else Names(subs[..|subs| - 1]) + seq(|subs[|subs| - 1]|, b requires 0 <= b < |subs[|subs| - 1]| => subs[|subs| - 1][b].0)
  }

  /** Every configured name is streamed from. */
  lemma {:induction false} NamesListsEveryEntry(subs: seq<seq<Entry>>, a: int, b: int)
    requires 0 <= a < |subs| && 0 <= b < |subs[a]|
    ensures subs[a][b].0 in Names(subs)
    decreases |subs|
  {
    var last := |subs| - 1;
    if a < last {
      assert subs[..last][a] == subs[a];
      NamesListsEveryEntry(subs[..last], a, b);
    } else {
      var tail := seq(|subs[last]|, k requires 0 <= k < |subs[last]| => subs[last][k].0);
      assert tail[b] == subs[a][b].0;
    }
  }

  /** `sep.join(parts)`. When no part contains the separator, it occurs in
      the result exactly when there are two parts or more. */
  function Join(parts: seq<string>, sep: char): (r: string)
    ensures (forall k :: 0 <= k < |parts| ==> sep !in parts[k]) ==> (sep in r <==> |parts| >= 2)
  {
    if parts == [] then []
    else if |parts| == 1 then parts[0]
    else
      var tail := Join(parts[1..], sep);
      assert (parts[0] + [sep] + tail)[|parts[0]|] == sep;
      assert (forall k :: 0 <= k < |parts| ==> sep !in parts[k]) ==>
        (forall k :: 0 <= k < |parts[1..]| ==> sep !in parts[1..][k]) by {
        forall k | 0 <= k < |parts[1..]| ensures parts[1..][k] == parts[k + 1] {
        }
      }
      parts[0] + [sep] + tail
  }

  /** `s.split(sep)`, the reading of "a+b+c" as a list of subreddits. */
  function Split(s: string, sep: char): (r: seq<string>)
    ensures |r| >= 1
  {
    if s == [] then [[]]
    else if s[0] == sep then [[]] + Split(s[1..], sep)
    else
      var rest := Split(s[1..], sep);
      [[s[0]] + rest[0]] + rest[1..]
  }

  lemma {:induction false} SplitPrefix(a: string, sep: char, rest: string)
    requires sep !in a
    ensures Split(a + rest, sep) ==
      var r := Split(rest, sep); [a + r[0]] + r[1..]
  {
    if a != [] {
      var t := a + rest;
      assert t[0] == a[0] && t[1..] == a[1..] + rest;
      assert sep !in a[1..] by {
        forall i | 0 <= i < |a[1..]| ensures a[1..][i] != sep {
          assert a[1..][i] == a[i + 1];
        }
      }
      SplitPrefix(a[1..], sep, rest);
      var r := Split(rest, sep);
      var rr := Split(t[1..], sep);
      assert rr == [a[1..] + r[0]] + r[1..];
      assert Split(t, sep) == [[a[0]] + rr[0]] + rr[1..];
      assert [a[0]] + (a[1..] + r[0]) == a + r[0];
    } else {
      var r := Split(rest, sep);
      assert a + rest == rest && a + r[0] == r[0];
      assert [r[0]] + r[1..] == r;
    }
  }

  /** Splitting the joined names gives the names back, provided there is at
      least one and none contains the separator. */
  lemma {:induction false} SplitJoin(parts: seq<string>, sep: char)
    requires |parts| >= 1
    requires forall k :: 0 <= k < |parts| ==> sep !in parts[k]
    ensures Split(Join(parts, sep), sep) == parts
  {
    if |parts| == 1 {
      SplitPrefix(parts[0], sep, []);
      assert parts[0] + [] == parts[0];
    } else {
      var tail := Join(parts[1..], sep);
      SplitJoin(parts[1..], sep);
      assert parts[0] + [sep] + tail == parts[0] + ([sep] + tail);
      SplitPrefix(parts[0], sep, [sep] + tail);
      assert ([sep] + tail)[1..] == tail;
      var r := Split([sep] + tail, sep);
      assert r == [[]] + parts[1..];
      assert parts[0] + r[0] == parts[0];
      assert parts == [parts[0]] + parts[1..];
    }
  }

  /** The subreddit names `stream_submissions` collects before joining. */
  method CollectNames(config: RedditConfig) returns (names: seq<string>)
    ensures names == Names(config.subreddits)
  {
    var subs := config.subreddits;
    names := [];
    var a := 0;
    while a < |subs|
      invariant 0 <= a <= |subs|
      invariant names == Names(subs[..a])
    {
      var b := 0;
      while b < |subs[a]|
        invariant 0 <= b <= |subs[a]|
        invariant names == Names(subs[..a]) + seq(b, k requires 0 <= k < b => subs[a][k].0)
      {
        names := names + [subs[a][b].0];
        b := b + 1;
      }
      assert subs[..a + 1][..a] == subs[..a];
      a := a + 1;
    }
    assert subs[..|subs|] == subs;
  }

  /** `"+".join(subs)`: the multireddit name streamed from. */
  method StreamName(config: RedditConfig) returns (joined: string)
    ensures joined == Join(Names(config.subreddits), '+')
  {
    var names := CollectNames(config);
    joined := Join(names, '+');
  }
}
