# Order-dependency evaluation and its analysis, modelled in Dafny

The system measures how a language model's answer to a multiple-choice question changes
when the answer options are shown in a different order. This project models its two
computational parts and proves properties of them.

- **The evaluation pipeline** (`packages/order-dependency/index.ts`).
  - `shiftOptions` rotates the option list to the left.
  - `evaluateOrderDependency` asks the four rotations 0..3 one after the other.
  - `getAnswers` runs `nEvals` trials per rotation. Each trial makes up to `MAX_RETRIES = 10`
    attempts. Every non-empty answer is then upserted into the `Answer` table under the
    composite key (question, model, option type, shown options, trial index).
- **The analysis page's data computation** (`apps/web/app/analysis/page.tsx`, lines 16-155).
  - The stored answers are grouped by question, then model, then option type, then shown
    options. Each question's distinct option orders are recorded in first-seen order.
  - For each (question, model, option type) the page computes *consistency*: the largest
    number of option orders that share a most-common answer, divided by the number of orders.
  - For each bucket it computes *stability*: the largest count of one answer text, divided by
    the bucket size.

Files:

- `answer_store.dfy` (module `AnswerStore`) holds the answer record, its unique key and the
  table.
  - The table is a class `AnswerTable` whose `rows` field is a map.
  - Its only write is `Upsert`: insert the full record, or overwrite only `text` when the key
    is already present.
  - `Keyed` says every row is stored under its own unique key. The upsert and the whole run
    keep it.
- `order_dependency.dfy` (module `OrderDependency`) holds the pipeline.
  - The model call (`answerQuestion`) is an oracle: a function from a `Call` to an `Attempt`
    that either throws or returns a text. A `Call` carries the question as shown, the
    prefixes, the model, and which attempt of which trial of which rotation it is, so every
    attempt may have its own outcome.
  - The answer schema promises that a returned text is one of the options shown. That
    promise is the predicate `Honest`, used as a hypothesis where it matters.
  - The loops are methods. Each is proved equal to a specification function (`FirstAnswer`,
    `Collect`, `Written`, `GetAnswersSpec`, `EvaluateUpTo`), and the lemmas are about those
    functions.
- `analysis.dfy` (module `Analysis`) holds the analysis.
  - JavaScript records keep their keys in insertion order. Where that order decides a value
    (answer tallies, ties of the running maximum, the first key of a tally, the option
    orders of a record), it is modelled as a sequence.
  - The nested records are flattened into maps keyed by their path: `GroupKey` is
    (question, model, option type) and `BucketKey` adds the options list.
  - An options list stands for its `JSON.stringify` text. That encoding is injective, so
    `JSON.parse` gives the list back.
  - Scores are Dafny `real`s.
- `scenarios.dfy` (module `Scenarios`) checks concrete values from the seed question
  "Largest Planet".

Points where the code's behaviour is easy to misread:

- **A trial that exhausts its retries.** Its last attempt rethrows the error
  (`index.ts:60`), which rejects the `Promise.all` (`index.ts:53`).
  - That rotation then writes nothing, not even the answers of its sibling trials.
  - The awaited call in `evaluateOrderDependency` (`index.ts:40`) rejects, so no later
    rotation runs.
  - `GetAnswersEffect`, `AbortAtRotation` and `AlwaysFailingWritesNothing` state this.
- **A model client that always fails.** With at least one trial (`nEvals > 0`), the run
  stops after the first rotation, which writes nothing, and the table is left as it was.
  With `nEvals = 0` no call is made, `Promise.all([])` resolves, and all four rotations run
  without writing.
- **Negative shift amounts.** The code never passes one: it only shifts by 1, 2 and 3.
  JavaScript's `%` of a negative number is negative, so such a shift would give `undefined`
  entries. The model takes shift amounts as `nat`.

## Model

| member | source | states |
|---|---|---|
| AnswerStore.AnswerTable.Upsert | packages/order-dependency/index.ts:85-99 | the table afterwards is the old one with the key either inserted with the full record or, if present, with only its text replaced; every other key keeps its row; a table whose rows sit under their own keys stays so when the created record carries the key |
| AnswerStore.UpsertEffect | packages/order-dependency/index.ts:85-99 | an upsert adds exactly its key; an existing row changes only in `text`, a new row is the full record, other keys are untouched |
| AnswerStore.UpsertKeepsKeyed | packages/order-dependency/index.ts:85-99 | an upsert whose created record carries its own key keeps every row under its own key, since only `text` is ever overwritten |
| AnswerStore.UpsertTwice | packages/order-dependency/index.ts:85-99 | upserting one key twice leaves one row holding the second text, with every other field from the first write or the row already there |
| OrderDependency.Shift | packages/order-dependency/index.ts:9-12 | the shifted list has the input's length, and for a non-empty list its first entry is the one at `numShifts mod len` |
| OrderDependency.ShiftIsRotation | packages/order-dependency/index.ts:9-12 | a shift of a non-empty list is the suffix from `k mod len` followed by the prefix before it, a cyclic left rotation |
| OrderDependency.ShiftIsPermutation | packages/order-dependency/index.ts:9-12 | a shift has the input's length and the same multiset of elements: nothing lost or duplicated |
| OrderDependency.ShiftIdentity | packages/order-dependency/index.ts:9-12 | shifting by 0 and shifting by the length both give the list back |
| OrderDependency.ShiftCompose | packages/order-dependency/index.ts:9-12 | shifting by a then by b equals shifting by a + b |
| OrderDependency.DistinctRotations | packages/order-dependency/index.ts:26-31 | for at least four distinct options, the rotations 0..3 are four different lists |
| OrderDependency.OptionSeries | packages/order-dependency/index.ts:26-31 | the series always has exactly four entries |
| OrderDependency.OptionSeriesIsRotations | packages/order-dependency/index.ts:26-31 | entry r of the series is the shift by r (entry 0 the original) and a permutation of the original options |
| OrderDependency.Attempts | packages/order-dependency/index.ts:51-58 | a trial can make exactly `MAX_RETRIES` = 10 model calls, each identified by its attempt number |
| OrderDependency.FirstAnswerDone | packages/order-dependency/index.ts:56-63 | a trial returns v if and only if some attempt returns v and every earlier attempt threw |
| OrderDependency.FirstAnswerFailed | packages/order-dependency/index.ts:56-63 | a trial fails if and only if every attempt threw, and then it rethrows the last attempt's error |
| OrderDependency.RunTrial | packages/order-dependency/index.ts:56-63 | the retry loop with its early return and its throw on the last attempt returns the first answer or the last error |
| OrderDependency.CollectSlots | packages/order-dependency/index.ts:53-65 | the joined trials succeed if and only if every trial returns; then there are exactly nEvals results and slot t holds trial t's text; otherwise the error is that of the lowest failing trial |
| OrderDependency.CollectFailureSticks | packages/order-dependency/index.ts:53-65 | once a trial has failed, joining more trials keeps the same failure |
| OrderDependency.CollectAnswers | packages/order-dependency/index.ts:53-65 | filling the results array trial by trial gives the joined result, stopping at the first failed trial |
| OrderDependency.TrialHonest | packages/order-dependency/index.ts:56-58 | with an honest model client, a text a trial returns is one of the options shown |
| OrderDependency.CollectHonest | packages/order-dependency/index.ts:53-65 | with an honest model client, every collected text is one of the options shown |
| OrderDependency.WrittenSlot | packages/order-dependency/index.ts:68-99 | after the writes, each non-empty slot i has a row under (question, model, option type, options, i): the old row with text i, or the full new record |
| OrderDependency.WrittenFrame | packages/order-dependency/index.ts:68-99 | a key that is not the key of a non-empty slot is exactly as before the writes |
| OrderDependency.WrittenKeysOnly | packages/order-dependency/index.ts:68-99 | the writes add no key other than those of non-empty slots |
| OrderDependency.WrittenEmpty | packages/order-dependency/index.ts:69 | empty answers write nothing: with no non-empty slot the table is unchanged |
| OrderDependency.WrittenKeyed | packages/order-dependency/index.ts:71-99 | the writes keep every row stored under its own unique key |
| OrderDependency.WriteAnswers | packages/order-dependency/index.ts:68-100 | the upsert loop over the slots leaves the table the specification of the writes describes |
| OrderDependency.GetAnswers | packages/order-dependency/index.ts:44-101 | one awaited call either rejects with no write or resolves after writing every non-empty answer |
| OrderDependency.GetAnswersEffect | packages/order-dependency/index.ts:44-101 | the call rejects exactly when some trial exhausts its retries, and then the table is unchanged; when it resolves, every non-empty trial text is stored under its key and rows of other option lists are untouched |
| OrderDependency.EvaluateOrderDependency | packages/order-dependency/index.ts:14-42 | the loop over the four rotations, each passed with its rotation number, leaves the table and outcome of running them in order until the first rejection |
| OrderDependency.RejectionIsFinal | packages/order-dependency/index.ts:33-41 | after a rejection no later rotation runs: table and error stay as they are |
| OrderDependency.AbortAtRotation | packages/order-dependency/index.ts:33-41 | if rotation r is the first to fail, the run rejects with its error and the table holds only what rotations before r wrote |
| OrderDependency.AlwaysFailingWritesNothing | packages/order-dependency/index.ts:53-63 | with at least one trial (nEvals > 0), a model client that always throws makes the run reject and leaves the table unchanged |
| OrderDependency.EvaluateHonest | packages/order-dependency/index.ts:33-41 | with an honest client, every row a run adds or changes holds one of its shown options, and those are the question's options shifted by one of the rotation amounts already run, hence a permutation of them |
| OrderDependency.EvaluateKeyed | packages/order-dependency/index.ts:33-41 | whether the run resolves or rejects, every row stays stored under its own unique key |
| OrderDependency.AllAnsweredCollects | packages/order-dependency/index.ts:53-65 | when every trial answers, each rotation collects nEvals non-empty texts, slot t being trial t |
| OrderDependency.EvaluateKeys | packages/order-dependency/index.ts:33-41 | from any table, a key present after the first rotations was there before or carries the options of one of the rotations run: no row is written for any other options list |
| OrderDependency.AllAnsweredResolves | packages/order-dependency/index.ts:33-41 | when every trial answers, every rotation resolves, whatever the table holds |
| OrderDependency.AllAnsweredSlot | packages/order-dependency/index.ts:71-83 | when every trial answers, on an empty table with four different rotations, the row of (rotation r, trial t) is the full record with trial t's text and `optionIndex` r |
| OrderDependency.EvaluateAllAnswered | packages/order-dependency/index.ts:14-42 | the end-to-end run, when every trial of every rotation returns a non-empty text, the four rotations are different lists and the table starts empty: it resolves and all 4 x nEvals rows exist, row (r, t) holding shift r, `optionIndex` r and trial t's text |
| Analysis.BumpAbsent | apps/web/app/analysis/page.tsx:99 | counting a text not yet in the tally appends it with count 1 |
| Analysis.BumpPresent | apps/web/app/analysis/page.tsx:99 | counting a text already in a tally with distinct keys adds one to its entry and changes nothing else |
| Analysis.TallyMultiplicity | apps/web/app/analysis/page.tsx:97-100 | every tally entry holds the number of occurrences of its text |
| Analysis.TallyCounts | apps/web/app/analysis/page.tsx:97-100 | the tally lists each distinct text once, with its number of occurrences, the first text first; it is empty exactly when there are no texts |
| Analysis.TallyKeysFirstSeen | apps/web/app/analysis/page.tsx:97-100 | the tally's keys are the distinct texts in order of first occurrence |
| Analysis.CountTexts | apps/web/app/analysis/page.tsx:97-100 | the counting loop builds the tally |
| Analysis.MaxValueIsMax | apps/web/app/analysis/page.tsx:122 | `Math.max` of the counts is one of the counts and at least every count |
| Analysis.MaxValueIsTopMultiplicity | apps/web/app/analysis/page.tsx:141 | the largest count of a non-empty list's tally is the multiplicity of its most frequent text, between 1 and the list's length |
| Analysis.MostCommonIsFirstMax | apps/web/app/analysis/page.tsx:103-110 | the running maximum with a strict `>` has the largest count and is the first entry with it; with no positive count it stays ("", 0) |
| Analysis.MostCommonCount | apps/web/app/analysis/page.tsx:103-110 | on a non-empty tally the running maximum's count is `Math.max` of the counts |
| Analysis.PickMostCommon | apps/web/app/analysis/page.tsx:103-110 | the loop over the tally's entries leaves the running maximum's answer and count |
| Analysis.WinnerEntry | apps/web/app/analysis/page.tsx:103-110 | the winner's tally entry has the largest count, and every earlier entry a smaller one |
| Analysis.WinnerIsMostFrequent | apps/web/app/analysis/page.tsx:96-112 | an order's winner is one of its texts and occurs most often |
| Analysis.WinnerFirstOnTies | apps/web/app/analysis/page.tsx:103-110 | a text that occurs as often as the winner first occurs no earlier than the winner |
| Analysis.DedupFirstSeen | apps/web/app/analysis/page.tsx:31-33 | the `includes`/`push` list holds each value exactly once, and the values of any prefix come first in the same order |
| Analysis.IndexOf | apps/web/app/analysis/page.tsx:145 | `indexOf` is the first position of a member and -1 for a non-member |
| Analysis.IndexOfInjective | apps/web/app/analysis/page.tsx:145 | in a list without repeats, different members have different indices |
| Analysis.FilterMembers | apps/web/app/analysis/page.tsx:24-57 | a bucket holds exactly the answers whose path is its key |
| Analysis.GroupedBucket | apps/web/app/analysis/page.tsx:35-56 | every answer lands in the bucket of its own (question, model, option type, options) path, in input order, and a bucket exists only for a path some answer has |
| Analysis.GroupedOptionKeys | apps/web/app/analysis/page.tsx:27-33 | the options keys of a question exist once it has an answer and are its answers' distinct options lists in first-seen order |
| Analysis.GroupedOrders | apps/web/app/analysis/page.tsx:46-54 | the options keys of an option type record are the distinct options lists of its answers in first-seen order |
| Analysis.GroupedWellFormed | apps/web/app/analysis/page.tsx:24-57 | after grouping, buckets are non-empty, each listed options key has its bucket, and every bucket's options are listed once for its question |
| Analysis.GroupedSize | apps/web/app/analysis/page.tsx:24-57 | the bucket sizes add up to the number of answers |
| Analysis.GroupAnswer | apps/web/app/analysis/page.tsx:25-56 | one pass of the loop body lists the options key for its question if new, adds a new bucket's key to its option type record, and pushes the answer onto its bucket |
| Analysis.GroupAnswers | apps/web/app/analysis/page.tsx:24-57 | the grouping loop builds the dictionaries described by folding one answer after another |
| Analysis.StabilityOf | apps/web/app/analysis/page.tsx:136-151 | a bucket's stability lies in (0, 1], its reported answer is the bucket's first text and its options are the bucket's own |
| Analysis.StabilityMeaning | apps/web/app/analysis/page.tsx:135-151 | stability is the share of the bucket held by its most frequent text and lies in (0, 1]; the entry carries the bucket's own options list |
| Analysis.StabilityAnswerIsFirstSeen | apps/web/app/analysis/page.tsx:143 | the reported answer is the first text seen, not always the most common: for Mars, Jupiter, Jupiter it is Mars while stability is 2/3 and the winner is Jupiter |
| Analysis.Consistency | apps/web/app/analysis/page.tsx:116-123 | consistency is 0 without orders and lies in (0, 1] otherwise |
| Analysis.ConsistencyMeaning | apps/web/app/analysis/page.tsx:116-123 | consistency is 0 without orders, and otherwise the share of the most common winner, in (0, 1] |
| Analysis.Winners | apps/web/app/analysis/page.tsx:93-116 | there is one winner per options key of the record |
| Analysis.SKeyInjective | apps/web/app/analysis/page.tsx:145-147 | a bucket's option index is a real position of its options in its question's list (never -1), and different buckets get different keys |
| Analysis.OrderWinners | apps/web/app/analysis/page.tsx:93-113 | the first loop over a record yields the winner of each of its options keys in key order |
| Analysis.CrossOrderConsistency | apps/web/app/analysis/page.tsx:116-123 | tallying the winners and dividing their top count by their number gives the consistency |
| Analysis.StoreStabilities | apps/web/app/analysis/page.tsx:135-152 | the second loop stores a stability for exactly the buckets of the record, each under its option index |
| Analysis.ScoreGroup | apps/web/app/analysis/page.tsx:87-152 | scoring one option type record adds its consistency, which the presence guard lets through because the record was not scored before, and the stability of each of its buckets, keeping everything already stored |
| Analysis.ScoreGroups | apps/web/app/analysis/page.tsx:78-155 | the scoring loops give one consistency per option type record and one stability entry per bucket |
| Analysis.Analyze | apps/web/app/analysis/page.tsx:16-155 | the whole computation: one consistency per (question, model, option type) seen and one stability per bucket under its option index |
| Analysis.AnalysisScoresInRange | apps/web/app/analysis/page.tsx:116-151 | on real answers every consistency and stability lies in (0, 1], and each stability reports its bucket's first text, its options and an option index of at least 0 |
| Scenarios.LargestPlanetSeries | apps/cli/questions.ts:7-11 | the four orders asked for "Largest Planet"; rotation 2 is Jupiter, Saturn, Earth, Mars |
| Scenarios.LargestPlanetOrdersDiffer | apps/cli/questions.ts:10 | the four orders of "Largest Planet" are different lists, so their rows never share a key |
| Scenarios.ThreeOfFourAgree | apps/web/app/analysis/page.tsx:116-123 | three of four orders agreeing on a winner give consistency 3/4 |

## Left out

- Concurrency. The `Promise.all` fan-out runs the trials one after the other by index. The
  un-awaited `forEach(async ...)` writes run one after the other by index. The written keys
  differ only in `index`, so the final table does not depend on the order. That
  `getAnswers` can resolve before its writes finish is not modelled.
- Failed writes. The database calls cannot fail in the model, and a rejected upsert inside
  the un-awaited `forEach` is not represented.
- The model client itself. The prompt, the network call and the structured-output parsing
  in `packages/ai/index.ts` are replaced by the oracle.
- The database layer. `packages/db/index.ts` and `packages/db/queries.ts` are not part of
  this model. The table is a map, and the page's `findMany` reads are its `answers`
  parameter. The questions list (`apps/web/app/analysis/page.tsx:13`) is not used by the lines modelled.
- The user interface. The JSX of the analysis page, `Analysis.tsx`, the question pages and
  the command-line driver (`apps/cli/index.ts`) are not part of this model. Only the seed
  options of `apps/cli/questions.ts` appear, as concrete values.
- `console.log` output.
- OrderDependency.Shift: negative shift amounts are not modelled, because the code never
  passes one. Such a shift would give `undefined` entries.
- Analysis.Analyze: the order in which `Object.entries` visits questions, models and
  option types is not modelled. The outer loops are one loop over the set of
  (question, model, option type) paths. No score depends on that order, because every path
  writes its own keys.
- Analysis.Analyze: the score tables are flattened maps. The empty intermediate records
  created at `apps/web/app/analysis/page.tsx:80-90` are not represented. Every path that creates one also stores at
  least one entry under it.
- Analysis.ScoreGroup: the guard on writing consistency (`apps/web/app/analysis/page.tsx:131`) is modelled as
  JavaScript truthiness of an optional number: present and not 0. NaN cannot occur. Since
  each path is visited once, the guard always passes in the model.
- Analysis.StabilityOf: requires a non-empty bucket. In the code, `Math.max` of an empty
  tally is `-Infinity`, but grouping never creates an empty bucket (`GroupedWellFormed`).
- JavaScript places integer-like keys before the others, whatever their insertion order.
  This exception is not modelled: tallies keep pure insertion order even for texts such as
  "1".
- Keys inherited from `Object.prototype`. The tallies at `apps/web/app/analysis/page.tsx:99`,
  `:119` and `:138` index a plain `{}`. For the text "constructor", `answerCounts[t] || 0`
  reads the inherited function, so the count becomes a string; the strict `>` at
  `apps/web/app/analysis/page.tsx:106` never picks it and `Math.max` at
  `apps/web/app/analysis/page.tsx:141` gives NaN. For the text "__proto__" the assignment is ignored, so the text never
  becomes a key, and a bucket holding only it has `-Infinity` as its top count. The model
  counts every text as an ordinary key.
- Keys inherited from `Object.prototype` in the grouping (`apps/web/app/analysis/page.tsx:27-56`).
  - A question named "constructor", "toString" or "__proto__": `!optionKeysByQuestionName[q]`
    at `apps/web/app/analysis/page.tsx:27` reads an inherited truthy value, so no array is
    created, and the `.includes` call at `apps/web/app/analysis/page.tsx:31` throws a
    `TypeError`: the page fails.
  - An option type named "constructor": `optionTypeGroup` at
    `apps/web/app/analysis/page.tsx:46-56` is the global `Object` function, the bucket is
    stored on it, and the `Object.entries` at `apps/web/app/analysis/page.tsx:87` never
    visits that option type, so it is never scored.
  - An option type named "__proto__": `optionTypeGroup` is `Object.prototype` itself, so the
    bucket array is stored on `Object.prototype` under the options key
    (`apps/web/app/analysis/page.tsx:52-53`). A later option type record with the same
    options list finds that inherited array at `apps/web/app/analysis/page.tsx:52` and
    pushes onto it, so it gets no bucket of its own: its consistency is stored as 0
    (`apps/web/app/analysis/page.tsx:123`) and it gets no stability.
  - In the model, `Analysis.Analyze` always returns and scores every such path as an
    ordinary key.
- Floating point. Scores are exact `real` quotients, not IEEE doubles.
