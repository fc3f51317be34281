# Reddit Post Notifier: a Dafny model of its core

The notifier streams new posts from configured subreddits. It checks each
post against per-subreddit include/exclude rules on the title and the flair.
For a match it renders a notification title and body from `{NAME}` templates
and hands them to an Apprise client. The repository also ships `FIFOSet`, a
bounded set that keeps insertion order and evicts the oldest element.

This project models and proves properties of:

- `fifo.dfy`, module `Fifo`: `FIFOSet` as a class `FifoSet` whose field
  `data` is the ordered key sequence of the Python `OrderedDict`. `Add`
  changes it in place. `Added` is the pure function that says what the new
  contents are, and the lemmas about the set's bounds, order and eviction are
  proved about it.
- `text.dfy`, module `Text`: the Python string primitives the rules use:
  `str.lower()`, the substring test `a in b`, and the `\w` character class.
- `matching.dfy`, module `Matching`: `matches`, with its four term lists.
- `templates.dfy`, module `Templates`: `render_template`. It is split into
  `Tokenize`, the one-pass scan of `re.sub(r"\{(\w+)\}", ...)`; `Replace`,
  the `replacer` callback; and `Fill`, which applies `Replace` to every
  placeholder the scan found.
- `notifier.dfy`, module `Notifier`: `process_submission`, `notify` and the
  subreddit-name collection and `"+"` join at the top of `stream_submissions`.
  The Apprise client is a `Sink` object that records every (title, body)
  call in order.

Facts about the code that shape the model:

- `app.py` never uses `FIFOSet`. A post is deduplicated only within one
  call of `process_submission`, by its local `processed` flag. Nothing stops
  the same post from being notified again on a later call (see
  `Notifier.DeliveredTwice`).
- `process_submission` does not stop at the first firing entry. It visits
  every entry, and the `processed` flag keeps later entries from notifying.
- `FIFOSet(max_size)` with `max_size <= 0` accepts construction, but
  every `add` of a new element pops from an empty map and raises `KeyError`.
  The model keeps this as the `raised` result of `Add` (see `AddRaises`)
  rather than forbidding such capacities.

## Model

| member | source | states |
|---|---|---|
| `Fifo.FifoSet.constructor` | fifo.py:17-24 | a new set is empty and has the given capacity, 100 when none is given |
| `Fifo.FifoSet.Add` | fifo.py:26-39 | keeps the invariant (distinct, within capacity); raises exactly when a new element meets a "full" empty set, and then changes nothing; otherwise the contents become `Added` of the old contents |
| `Fifo.Added` | fifo.py:35-39 | after adding: still distinct and within capacity, the element is present and last when new; a present element leaves contents and order unchanged; a non-full set only appends, growing by one; a full set loses exactly its oldest element and the others keep their order |
| `Fifo.AddRaises` | fifo.py:35-38 | the KeyError of `add` happens exactly when the set is empty and its capacity is zero or less, whatever the element |
| `Fifo.AddAll` | fifo.py:35-39 | adding elements that are all present already changes nothing, not even the order |
| `Fifo.AddAllBounded` | fifo.py:35-39 | after any sequence of adds the set is still distinct and within capacity, and holds only elements that were there or were added |
| `Fifo.LastAddedPresent` | fifo.py:37-39 | with capacity at least one, the last element added is always present after any sequence of adds |
| `Fifo.PositiveCapacityNeverRaises` | fifo.py:37-38 | with capacity at least one no add raises |
| `Fifo.NonPositiveCapacityRaises` | fifo.py:37-38 | with capacity zero or less the set is empty and every add raises |
| `Fifo.FifoSet.Contains` | fifo.py:41-43 | membership is membership in the iteration order |
| `Fifo.FifoSet.Len` | fifo.py:45-47 | the length is the number of elements iterated, never above the capacity |
| `Fifo.FifoSet.Items` | fifo.py:49-51 | iteration yields each element once, within capacity |
| `Fifo.EvictionScenario` | fifo.py:26-39 | with capacity 2, adding 1, 2, 1, 3 leaves 2, 3: re-adding 1 does not refresh it, so 3 evicts 1 |
| `Fifo.ReAddThenEvict` | fifo.py:35-39 | on the full set 1, 2, re-adding 1 changes nothing and adding 3 evicts 1, leaving 2, 3 |
| `Text.LowerChar` | app.py:122 | upper-case ASCII letters map to lower case, everything else is unchanged, and the result is never upper case |
| `Text.Lower` | app.py:122 | lowering keeps the length and lowers each character |
| `Text.IsSubstring` | app.py:122 | true exactly when the needle occurs at some index of the haystack (so the empty needle always occurs) |
| `Matching.AnyTermIn` | app.py:122 | true exactly when some term, lowered, is a substring of the lowered title |
| `Matching.AnyTermIs` | app.py:132 | true exactly when some term, lowered, equals the lowered flair |
| `Matching.Matches` | app.py:117-140 | accepts only if every active rule passes: some include-title term occurs, no exclude-title term occurs, and for a non-empty flair some include-flair term equals it and no exclude-flair term does; rejects only if one of these fails |
| `Matching.RejectsWithoutTitleTerm` | app.py:121-123 | a non-empty include-title list with no term in the title rejects |
| `Matching.RejectsExcludedTitleTerm` | app.py:126-128 | any exclude-title term occurring in the title rejects |
| `Matching.AbsentFlairIgnoresFlairRules` | app.py:131-138 | with the flair absent or empty, the result is that of the title rules alone, whatever the flair lists hold |
| `Matching.PresentFlairRules` | app.py:131-137 | with a present flair, an include-flair list with no equal term rejects, and an exclude-flair term equal to it rejects |
| `Matching.NoRulesMatchAll` | app.py:117-140 | with all four lists empty or null, every post matches |
| `Matching.MatchesIgnoresCase` | app.py:117-140 | changing the letter case of the title, the flair or any term never changes the result |
| `Matching.SaleScenario` | app.py:121-123 | include-title `sale` accepts `Big SALE today` with no flair |
| `Matching.SpoilerScenario` | app.py:136-138 | exclude-flair `spoiler` rejects flair `Spoiler` |
| `Templates.WordPrefix` | app.py:204 | the length of the longest run of word characters at the front |
| `Templates.TokenAt` | app.py:204 | a match at the front is `{`, a non-empty word, `}` |
| `Templates.TokenAtWord` | app.py:204 | conversely, `{`, a non-empty word and `}` at the front always match, naming that word |
| `Templates.TokenizeRoundTrip` | app.py:204 | the pieces of the scan glue back to exactly the template |
| `Templates.TokenizeWellFormed` | app.py:204 | every placeholder the scan finds has a non-empty word as its name |
| `Templates.Replace` | app.py:194-202 | the replacer gives the mapped value for a known key and puts an unknown placeholder back, braces and all |
| `Templates.FillUnknownIsIdentity` | app.py:202 | placeholders with unknown keys are put back as they were |
| `Templates.RenderUnknownVerbatim` | app.py:194-202 | a template none of whose placeholders is a mapped key renders to itself |
| `Templates.RenderEmptyMapping` | app.py:202 | with an empty mapping every template renders to itself |
| `Templates.RenderWithoutCloseBrace` | app.py:204 | a template without `}` (such as a lone `{`) renders to itself |
| `Templates.RenderNonWordBraces` | app.py:204 | `{a-b}` is not a token and renders to itself |
| `Templates.RenderUnmatched` | app.py:204 | where no token starts, one character is copied and scanning goes on |
| `Templates.RenderChar` | app.py:204 | a character other than `{` is copied through |
| `Templates.RenderPlaceholder` | app.py:194-204 | a `{NAME}` token is replaced and scanning resumes after its `}`, so the replacement is never rescanned |
| `Templates.RenderSingle` | app.py:194-200 | `{NAME}` with NAME mapped renders to the mapped value, whatever that value contains |
| `Templates.RenderText` | app.py:204 | text without `{` is copied through ahead of whatever follows |
| `Templates.RenderPair` | app.py:185-204 | two mapped placeholders around a separator without `{` render to value, separator, value |
| `Templates.RenderExample` | app.py:185-204 | `{TITLE} in {SOURCE}` renders to `title + " in " + source` |
| `Notifier.Sink.Send` | app.py:153-156 | the sink records one (title, body) call at the end |
| `Notifier.Mapping` | app.py:145-150 | the mapping has exactly the keys TITLE, SUBREDDIT, URL and FLAIR; URL is `https://www.reddit.com` followed by the permalink, and FLAIR is `""` when the flair is absent |
| `Notifier.Message` | app.py:145-152 | a notification template without any `}` holds no placeholder and is sent as written, for the title and the body alike |
| `Notifier.Notify` | app.py:143-156 | sends exactly one notification: both templates rendered with the submission's mapping |
| `Notifier.Fires` | app.py:92-94 | an entry for another subreddit (compared without case) never fires; an entry with no rules fires for every post of its subreddit |
| `Notifier.ProcessSubmission` | app.py:82-101 | sends exactly one notification if some configured entry has the submission's subreddit name (ignoring case) and matching rules, and none otherwise |
| `Notifier.AnyFiresIgnoresSubredditCase` | app.py:92 | the submission's subreddit name is compared without regard to case |
| `Notifier.DeliveredTwice` | app.py:82-101 | a matching submission processed twice is notified twice: there is no deduplication across calls |
| `Notifier.DefaultMessage` | app.py:145-152 | with the default templates the title is `subreddit + " - " + title` and the body the full post URL |
| `Notifier.DefaultTitle` | config_schema.py:44 | the default title template renders to subreddit, ` - `, title |
| `Notifier.DefaultBody` | config_schema.py:45 | the default body template renders to the URL value |
| `Notifier.AbsentFlairRendersEmpty` | app.py:149 | `{FLAIR}` renders to the empty string for a post without flair |
| `Notifier.Names` | app.py:54-57 | one name is collected per configured entry |
| `Notifier.CollectNames` | app.py:53-57 | collects the names of all entries of all dictionaries in configuration order |
| `Notifier.NamesListsEveryEntry` | app.py:54-57 | every configured name is among the collected names |
| `Notifier.Join` | app.py:59 | when no name contains `+`, the joined name contains `+` exactly when there are two names or more |
| `Notifier.StreamName` | app.py:53-59 | the streamed multireddit name is the collected names joined with `+` |
| `Notifier.SplitJoin` | app.py:59 | splitting the joined name at `+` gives back the list of names, when there is at least one and none contains `+` |

## Left out

- `main`, argument and environment handling, and configuration loading (app.py:18-48, config_schema.py): process start-up and file input. Only the default templates and the empty-list defaults are kept, as constants.
- The `while True` streaming loop, the `KeyboardInterrupt` exit and the 30-second back-off (app.py:62-79): an unbounded network stream and timing. `process_submission` is modelled for one submission.
- `get_reddit_client`, `get_apprise_client` and `validate_subreddits` (app.py:159-182): thin wrappers over the praw, prawcore and Apprise network libraries.
- The verbose-logging `print` (app.py:102-114): console output and time conversion. The model also does not capture that this line concatenates the flair, so it would raise `TypeError` for a post without flair when logging is on.
- The `print` of each configured subreddit (app.py:58): console output.
- `__repr__` of `FIFOSet` (fifo.py:53-55): string formatting only.
- Text.Lower: `str.lower()` is Unicode-aware. The model lowers ASCII letters only.
- Text.IsWordChar: `\w` is Unicode-aware. The model accepts ASCII letters, digits and `_` only.
- Templates.Render: mapping values are already-evaluated strings. Callable values and `None` values (app.py:197-200) are not modelled.
- Notifier.RedditConfig: the notification templates are strings. A `null` template in the YAML, which would make `re.sub` raise, is not modelled.
- Notifier.Sink.Send: delivery failures inside Apprise are not modelled. The sink only records the call.
- Credentials, the creation time and the id of a submission are not carried, because the modelled code does not read them.
