/**
 * The data computation of the analysis page: group the stored answers by question, model,
 * option style and shown options, then score each option style of each (question, model):
 *
 *   - stability of one option order: the largest count of one answer text in its bucket,
 *     divided by the bucket's size;
 *   - consistency across option orders: for each order take its most common answer
 *     (first one on ties), then divide the largest number of orders that agree by the
 *     number of orders.
 *
 * JavaScript objects used as dictionaries keep insertion order; where that order decides
 * a value (answer tallies, the ties of the running maximum, the first key of a tally, the
 * options lists of one option style) it is modelled by sequences. An options list stands
 * for its JSON text, which is an injective encoding, so parsing it back gives the list.
 */
module Analysis {
  import opened AnswerStore

  // ---------------------------------------------------------------------------------
  // Answer tallies: `counts[text] = (counts[text] || 0) + 1` over an insertion-ordered record

  /** A tally keyed by text, in the order the texts were first inserted. */
  type Counts = seq<(string, nat)>

  predicate DistinctKeys(counts: Counts) {
    forall i, j :: 0 <= i < j < |counts| ==> counts[i].0 != counts[j].0
  }

  /** Add one occurrence of `w`: bump its entry, or append a new entry with count 1. */
  function Bump(counts: Counts, w: string): Counts {
    if counts == [] then [(w, 1)]
    else if counts[0].0 == w then [(w, counts[0].1 + 1)] + counts[1..]
    else [counts[0]] + Bump(counts[1..], w)
  }

  /** The tally of `texts`, built by one bump per text in order. */
  function Tally(texts: seq<string>): Counts {
    if texts == [] then [] else Bump(Tally(texts[..|texts| - 1]), texts[|texts| - 1])
  }

  /** The texts of a tally, in entry order. */
  function Keys(counts: Counts): seq<string>
  {
    seq(|counts|, i requires 0 <= i < |counts| => counts[i].0)
  }

  /** Bumping a text not in the tally appends it with count 1. */
  lemma {:induction false} BumpAbsent(counts: Counts, w: string)
    requires forall i :: 0 <= i < |counts| ==> counts[i].0 != w
    ensures Bump(counts, w) == counts + [(w, 1)]
  {
    if counts != [] {
      assert forall i :: 0 <= i < |counts| - 1 ==> counts[1..][i] == counts[i + 1];
      BumpAbsent(counts[1..], w);
      assert counts == [counts[0]] + counts[1..];
    }
  }

  /** Bumping a text at entry j of a tally with distinct keys adds one to that entry only. */
  lemma {:induction false} BumpPresent(counts: Counts, w: string, j: nat)
    requires DistinctKeys(counts) && j < |counts| && counts[j].0 == w
    ensures Bump(counts, w) == counts[j := (w, counts[j].1 + 1)]
  {
    if counts[0].0 != w {
      var tail := counts[1..];
      assert tail[j - 1] == counts[j];
      BumpPresent(tail, w, j - 1);
      assert Bump(counts, w) == [counts[0]] + tail[j - 1 := (w, counts[j].1 + 1)];
    }
  }

  /** The tally's keys are the distinct texts in order of first occurrence. */
  lemma {:induction false} TallyKeysFirstSeen(texts: seq<string>)
    ensures Keys(Tally(texts)) == Dedup(texts)
    ensures DistinctKeys(Tally(texts))
  {
    if texts != [] {
      var init, w := texts[..|texts| - 1], texts[|texts| - 1];
      TallyKeysFirstSeen(init);
      DedupFirstSeen(init);
      var t0 := Tally(init);
      if w in Dedup(init) {
        var j := IndexOf(Dedup(init), w);
        BumpPresent(t0, w, j);
        assert Keys(Tally(texts)) == Keys(t0);
      } else {
        assert forall i :: 0 <= i < |t0| ==> t0[i].0 != w by {
          forall i | 0 <= i < |t0| ensures t0[i].0 != w { assert t0[i].0 == Keys(t0)[i]; }
        }
        BumpAbsent(t0, w);
        assert Keys(Tally(texts)) == Keys(t0) + [w];
      }
    }
  }

  /** Each entry of the tally counts the occurrences of its text. */
  lemma {:induction false} TallyMultiplicity(texts: seq<string>)
    ensures forall i :: 0 <= i < |Tally(texts)| ==> Tally(texts)[i].1 == multiset(texts)[Tally(texts)[i].0]
  {
    if texts != [] {
      var init, w := texts[..|texts| - 1], texts[|texts| - 1];
      assert texts == init + [w];
      assert multiset(texts) == multiset(init) + multiset{w};
      TallyMultiplicity(init);
      TallyKeysFirstSeen(init);
      DedupFirstSeen(init);
      var t0, t := Tally(init), Tally(texts);
      if w in Dedup(init) {
        var j := IndexOf(Dedup(init), w);
        BumpPresent(t0, w, j);
        forall i | 0 <= i < |t| ensures t[i].1 == multiset(texts)[t[i].0] {
          assert t0[i].0 == Keys(t0)[i];
        }
      } else {
        assert forall i :: 0 <= i < |t0| ==> t0[i].0 != w by {
          forall i | 0 <= i < |t0| ensures t0[i].0 != w { assert t0[i].0 == Keys(t0)[i]; }
        }
        BumpAbsent(t0, w);
        assert w !in init;
      }
    }
  }

  /**
   * The tally lists each distinct text once with its number of occurrences, the first
   * text first; it is empty exactly when there are no texts.
   */
  lemma TallyCounts(texts: seq<string>)
    ensures var t := Tally(texts);
      && DistinctKeys(t)
      && |t| <= |texts|
      && (|texts| > 0 <==> |t| > 0)
      && (forall i :: 0 <= i < |t| ==> t[i].1 == multiset(texts)[t[i].0] && t[i].1 >= 1)
      && (forall w :: w in texts <==> exists i :: 0 <= i < |t| && t[i].0 == w)
      && (|texts| > 0 ==> t[0].0 == texts[0])
  {
    var t := Tally(texts);
    TallyKeysFirstSeen(texts);
    DedupFirstSeen(texts);
    TallyMultiplicity(texts);
    forall w ensures w in texts <==> exists i :: 0 <= i < |t| && t[i].0 == w {
      if w in texts {
        var i := IndexOf(Dedup(texts), w);
        assert t[i].0 == Keys(t)[i];
      }
      if exists i :: 0 <= i < |t| && t[i].0 == w {
        var i :| 0 <= i < |t| && t[i].0 == w;
        assert Keys(t)[i] == w;
      }
    }
    forall i | 0 <= i < |t| ensures t[i].1 >= 1 {
      assert t[i].0 in texts;
    }
    if |texts| > 0 {
      assert texts[..1] == [] + [texts[0]];
      assert Dedup(texts[..1]) == [texts[0]];
      assert Keys(t)[0] == texts[0];
    }
  }

  /** Counting in a loop, one bump per text: the tally of the texts. */
  method CountTexts(texts: seq<string>) returns (counts: Counts)
    ensures counts == Tally(texts)
  {
    counts := [];
    for i := 0 to |texts|
      invariant counts == Tally(texts[..i])
    {
      assert texts[..i + 1][..i] == texts[..i];
      counts := Bump(counts, texts[i]);
    }
    assert texts[..|texts|] == texts;
  }

  /** The largest count of a non-empty tally (`Math.max` over its values). */
  function MaxValue(counts: Counts): nat
    requires |counts| > 0
  {
    if |counts| == 1 then counts[0].1
    else
      var m := MaxValue(counts[..|counts| - 1]);
      if counts[|counts| - 1].1 > m then counts[|counts| - 1].1 else m
  }

  lemma {:induction false} MaxValueIsMax(counts: Counts)
    requires |counts| > 0
    ensures forall i :: 0 <= i < |counts| ==> counts[i].1 <= MaxValue(counts)
    ensures exists i :: 0 <= i < |counts| && counts[i].1 == MaxValue(counts)
  {
    if |counts| > 1 {
      MaxValueIsMax(counts[..|counts| - 1]);
      var init := counts[..|counts| - 1];
      var i :| 0 <= i < |init| && init[i].1 == MaxValue(init);
      assert counts[i] == init[i];
      assert forall k :: 0 <= k < |init| ==> counts[k] == init[k];
      if counts[|counts| - 1].1 > MaxValue(init) {
        assert counts[|counts| - 1].1 == MaxValue(counts);
      }
    } else {
      assert counts[0].1 == MaxValue(counts);
    }
  }

  // ---------------------------------------------------------------------------------
  // The most common answer of one option order: a running maximum with a strict `>`

  /** The running maximum from ("", 0): a later entry wins only with a strictly larger count. */
  function MostCommon(counts: Counts): (string, nat) {
    if counts == [] then ("", 0)
    else
      var best := MostCommon(counts[..|counts| - 1]);
      if counts[|counts| - 1].1 > best.1 then counts[|counts| - 1] else best
  }

  /**
   * The running maximum picks the largest count, and among the entries with that count the
   * first one; with no positive count it keeps ("", 0).
   */
  lemma {:induction false} MostCommonIsFirstMax(counts: Counts)
    ensures var (answer, maxCount) := MostCommon(counts);
      && (forall i :: 0 <= i < |counts| ==> counts[i].1 <= maxCount)
      && (maxCount == 0 ==> answer == "")
      && (maxCount > 0 ==>
            exists j :: 0 <= j < |counts| && counts[j] == (answer, maxCount) &&
              forall i :: 0 <= i < j ==> counts[i].1 < maxCount)
  {
    if counts != [] {
      var init := counts[..|counts| - 1];
      MostCommonIsFirstMax(init);
      var best := MostCommon(init);
      if counts[|counts| - 1].1 <= best.1 && best.1 > 0 {
        var j :| 0 <= j < |init| && init[j] == best && forall i :: 0 <= i < j ==> init[i].1 < best.1;
        assert counts[j] == best;
      }
    }
  }

  /** On a non-empty tally the running maximum's count is `Math.max` of the counts. */
  lemma MostCommonCount(counts: Counts)
    requires |counts| > 0
    ensures MostCommon(counts).1 == MaxValue(counts)
  {
    MostCommonIsFirstMax(counts);
    MaxValueIsMax(counts);
  }

  /** The loop over the tally's entries that keeps the running `mostCommonAnswer` and `maxCount`. */
  method PickMostCommon(counts: Counts) returns (mostCommonAnswer: string, maxCount: nat)
    ensures (mostCommonAnswer, maxCount) == MostCommon(counts)
  {
    mostCommonAnswer, maxCount := "", 0;
    for i := 0 to |counts|
      invariant (mostCommonAnswer, maxCount) == MostCommon(counts[..i])
    {
      assert counts[..i + 1][..i] == counts[..i];
      var (answer, count) := counts[i];
      if count > maxCount {
        maxCount := count;
        mostCommonAnswer := answer;
      }
    }
    assert counts[..|counts|] == counts;
  }

  // ---------------------------------------------------------------------------------
  // First-seen distinct values: `if (!list.includes(x)) list.push(x)` over a sequence

  predicate Distinct<T(==)>(s: seq<T>) {
    forall i, j :: 0 <= i < j < |s| ==> s[i] != s[j]
  }

  /** The distinct values of `s`, each where it first occurs. */
  function Dedup<T(==)>(s: seq<T>): seq<T> {
    if s == [] then []
    else
      var d := Dedup(s[..|s| - 1]);
      if s[|s| - 1] in d then d else d + [s[|s| - 1]]
  }

  /**
   * `Dedup` keeps each value of `s` exactly once, and the distinct values of any prefix of
   * `s` come first, in the same order: the values are listed in order of first occurrence.
   */
  lemma {:induction false} DedupFirstSeen<T>(s: seq<T>)
    ensures Distinct(Dedup(s))
    ensures |Dedup(s)| <= |s|
    ensures forall x :: x in Dedup(s) <==> x in s
    ensures forall n :: 0 <= n <= |s| ==> Dedup(s[..n]) <= Dedup(s)
  {
    if s != [] {
      var init := s[..|s| - 1];
      DedupFirstSeen(init);
      assert s == init + [s[|s| - 1]];
      forall n | 0 <= n <= |s| ensures Dedup(s[..n]) <= Dedup(s) {
        if n < |s| {
          assert s[..n] == init[..n];
        } else {
          assert s[..n] == s;
        }
      }
    }
  }

  /** `Array.prototype.indexOf`: the first index of `x` in `s`, or -1 when it is absent. */
  function IndexOf<T(==)>(s: seq<T>, x: T): (r: int)
    ensures x in s ==> 0 <= r < |s| && s[r] == x && forall i :: 0 <= i < r ==> s[i] != x
    ensures x !in s ==> r == -1
  {
    if s == [] then -1
    else if s[0] == x then 0
    else
      var r := IndexOf(s[1..], x);
      if r < 0 then -1 else r + 1
  }

  /** On a list without repeats, two members with the same index are the same member. */
  lemma IndexOfInjective<T>(s: seq<T>, x: T, y: T)
    requires Distinct(s) && x in s && y in s && IndexOf(s, x) == IndexOf(s, y)
    ensures x == y
  {
  }

  // ---------------------------------------------------------------------------------
  // The tally's keys in first-seen order; ties of the running maximum go to the first text

  /** The text reported for one option order: the running maximum over its tally. */
  function Winner(texts: seq<string>): string {
    MostCommon(Tally(texts)).0
  }

  /** The tally entry of the winner: it has the largest count, and every earlier entry less. */
  lemma WinnerEntry(texts: seq<string>) returns (j: nat)
    requires |texts| > 0
    ensures var t := Tally(texts);
      && j < |t| && t[j].0 == Winner(texts) && t[j].1 == multiset(texts)[Winner(texts)]
      && (forall i :: 0 <= i < |t| ==> t[i].1 <= t[j].1)
      && (forall i :: 0 <= i < j ==> t[i].1 < t[j].1)
  {
    var t := Tally(texts);
    TallyCounts(texts);
    MostCommonIsFirstMax(t);
    var maxCount := MostCommon(t).1;
    assert maxCount >= t[0].1 >= 1;
    j :| 0 <= j < |t| && t[j] == (Winner(texts), maxCount) && forall i :: 0 <= i < j ==> t[i].1 < maxCount;
  }

  /** The winner of a non-empty list of texts is one of them and occurs most often. */
  lemma WinnerIsMostFrequent(texts: seq<string>)
    requires |texts| > 0
    ensures Winner(texts) in texts
    ensures forall x :: multiset(texts)[x] <= multiset(texts)[Winner(texts)]
  {
    var t := Tally(texts);
    var j := WinnerEntry(texts);
    TallyCounts(texts);
    forall x ensures multiset(texts)[x] <= multiset(texts)[Winner(texts)] {
      if x in texts {
        var p :| 0 <= p < |t| && t[p].0 == x;
      }
    }
  }

  /**
   * Every text that occurs as often as the winner first occurs no earlier than the winner:
   * `count > maxCount` lets a tie go to the text seen first.
   */
  lemma WinnerFirstOnTies(texts: seq<string>)
    requires |texts| > 0
    ensures forall i :: 0 <= i < |texts| && multiset(texts)[texts[i]] == multiset(texts)[Winner(texts)] ==>
              Winner(texts) in texts[..i + 1]
  {
    var t := Tally(texts);
    var w := Winner(texts);
    var j := WinnerEntry(texts);
    TallyKeysFirstSeen(texts);
    TallyMultiplicity(texts);
    DedupFirstSeen(texts);
    forall i | 0 <= i < |texts| && multiset(texts)[texts[i]] == multiset(texts)[w]
      ensures w in texts[..i + 1]
    {
      var x := texts[i];
      var d := Dedup(texts);
      var prefix := Dedup(texts[..i + 1]);
      DedupFirstSeen(texts[..i + 1]);
      assert x in texts[..i + 1];
      var p := IndexOf(prefix, x);
      assert d[p] == x;
      assert t[p].0 == Keys(t)[p] == x;
      assert j <= p;
      assert prefix[j] == d[j] == w;
    }
  }

  // ---------------------------------------------------------------------------------
  // The share of the most common value: Math.max over a tally, divided by its size

  lemma {:induction false} MultiplicityBound(s: seq<string>, w: string)
    ensures multiset(s)[w] <= |s|
  {
    if s != [] {
      MultiplicityBound(s[1..], w);
      assert s == [s[0]] + s[1..];
    }
  }

  /** `Math.max` of a tally of a non-empty list is the multiplicity of its most frequent value. */
  lemma MaxValueIsTopMultiplicity(texts: seq<string>)
    requires |texts| > 0
    ensures |Tally(texts)| > 0
    ensures 1 <= MaxValue(Tally(texts)) <= |texts|
    ensures exists w :: w in texts && MaxValue(Tally(texts)) == multiset(texts)[w]
    ensures forall w :: multiset(texts)[w] <= MaxValue(Tally(texts))
  {
    var t := Tally(texts);
    TallyCounts(texts);
    MaxValueIsMax(t);
    var i :| 0 <= i < |t| && t[i].1 == MaxValue(t);
    MultiplicityBound(texts, t[i].0);
    forall w ensures multiset(texts)[w] <= MaxValue(t) {
      if w in texts {
        var p :| 0 <= p < |t| && t[p].0 == w;
      }
    }
  }

  /** The fraction `count / size` for a size of at least one. */
  lemma ShareBounds(count: nat, other: nat, size: nat)
    requires 1 <= count <= size && other <= count
    ensures 0.0 < count as real / size as real <= 1.0
    ensures other as real / size as real <= count as real / size as real
  {
    var d := (count - other) as real / size as real;
    assert d >= 0.0;
    assert count as real / size as real == other as real / size as real + d;
  }

  // ---------------------------------------------------------------------------------
  // Grouping the answers: question -> model -> option type -> options key
  // (the `for ... of answers` loop of `apps/web/app/analysis/page.tsx`)

  /** The path (question, model, option type) of one option type record. */
  datatype GroupKey = GroupKey(questionName: string, modelName: ModelName, optionType: string)

  /** The full path of one bucket: its option type record and the options list shown. */
  datatype BucketKey = BucketKey(group: GroupKey, options: seq<string>)

  function GroupOf(a: Answer): GroupKey {
    GroupKey(a.questionName, a.modelName, a.optionType)
  }

  function BucketOf(a: Answer): BucketKey {
    BucketKey(GroupOf(a), a.options)
  }

  /**
   * The dictionaries the grouping loop builds, flattened to their paths: `optionKeys[q]` is
   * `optionKeysByQuestionName[q]`, `orders[gk]` lists the options keys of the option type
   * record at path `gk` in insertion order, and `buckets[k]` is the array at path `k`.
   */
  datatype Grouping = Grouping(
    optionKeys: map<string, seq<seq<string>>>,
    orders: map<GroupKey, seq<seq<string>>>,
    buckets: map<BucketKey, seq<Answer>>)

  /** `optionKeysByQuestionName`: list the options key for its question, unless it is already listed. */
  function AddOptionKey(optionKeys: map<string, seq<seq<string>>>, q: string, o: seq<string>): map<string, seq<seq<string>>> {
    var keys := if q in optionKeys then optionKeys[q] else [];
    optionKeys[q := if o in keys then keys else keys + [o]]
  }

  /** `optionTypeGroup`: a new bucket's options key joins its option type record. */
  function AddOrder(orders: map<GroupKey, seq<seq<string>>>, buckets: map<BucketKey, seq<Answer>>, k: BucketKey)
    : map<GroupKey, seq<seq<string>>>
  {
    var keys := if k.group in orders then orders[k.group] else [];
    orders[k.group := if k in buckets then keys else keys + [k.options]]
  }

  /** The bucket `optionTypeGroup[optionsKey]`: the answer is pushed onto its bucket. */
  function AddToBucket(buckets: map<BucketKey, seq<Answer>>, k: BucketKey, a: Answer): map<BucketKey, seq<Answer>> {
    buckets[k := (if k in buckets then buckets[k] else []) + [a]]
  }

  /** One pass of the grouping loop body for answer `a`. */
  function AddAnswer(g: Grouping, a: Answer): Grouping {
    Grouping(
      AddOptionKey(g.optionKeys, a.questionName, a.options),
      AddOrder(g.orders, g.buckets, BucketOf(a)),
      AddToBucket(g.buckets, BucketOf(a), a))
  }

  /** The dictionaries after the grouping loop has run over `answers` in order. */
  function Grouped(answers: seq<Answer>): Grouping {
    if answers == [] then Grouping(map[], map[], map[])
    else AddAnswer(Grouped(answers[..|answers| - 1]), answers[|answers| - 1])
  }

  /** The answers whose path is `k`, in input order. */
  function Filter(answers: seq<Answer>, k: BucketKey): seq<Answer> {
    if answers == [] then []
    else
      var a := answers[|answers| - 1];
      Filter(answers[..|answers| - 1], k) + (if BucketOf(a) == k then [a] else [])
  }

  /** The options lists of the answers to question `q`, in input order. */
  function OptionsOf(answers: seq<Answer>, q: string): seq<seq<string>> {
    if answers == [] then []
    else
      var a := answers[|answers| - 1];
      OptionsOf(answers[..|answers| - 1], q) + (if a.questionName == q then [a.options] else [])
  }

  /** The options lists of the answers at path `gk`, in input order. */
  function GroupOptions(answers: seq<Answer>, gk: GroupKey): seq<seq<string>> {
    if answers == [] then []
    else
      var a := answers[|answers| - 1];
      GroupOptions(answers[..|answers| - 1], gk) + (if GroupOf(a) == gk then [a.options] else [])
  }

  /** A filtered bucket holds exactly the answers with that path. */
  lemma {:induction false} FilterMembers(answers: seq<Answer>, k: BucketKey)
    ensures forall a :: a in Filter(answers, k) <==> a in answers && BucketOf(a) == k
  {
    if answers != [] {
      var init := answers[..|answers| - 1];
      FilterMembers(init, k);
      assert answers == init + [answers[|answers| - 1]];
    }
  }

  /**
   * Every answer lands in the bucket of its own path, in input order, and a bucket exists
   * exactly when some answer has its path.
   */
  lemma {:induction false} GroupedBucket(answers: seq<Answer>, k: BucketKey)
    ensures k in Grouped(answers).buckets <==> Filter(answers, k) != []
    ensures k in Grouped(answers).buckets ==> Grouped(answers).buckets[k] == Filter(answers, k)
  {
    if answers != [] {
      GroupedBucket(answers[..|answers| - 1], k);
    }
  }

  /**
   * `optionKeysByQuestionName[q]` exists exactly when `q` was asked, and lists the distinct
   * options lists of `q`'s answers in order of first occurrence.
   */
  lemma {:induction false} GroupedOptionKeys(answers: seq<Answer>, q: string)
    ensures q in Grouped(answers).optionKeys <==> OptionsOf(answers, q) != []
    ensures q in Grouped(answers).optionKeys ==> Grouped(answers).optionKeys[q] == Dedup(OptionsOf(answers, q))
  {
    if answers != [] {
      var init, a := answers[..|answers| - 1], answers[|answers| - 1];
      GroupedOptionKeys(init, q);
      if a.questionName == q {
        assert OptionsOf(answers, q) == OptionsOf(init, q) + [a.options];
        assert (OptionsOf(init, q) + [a.options])[..|OptionsOf(init, q)|] == OptionsOf(init, q);
      } else {
        assert OptionsOf(answers, q) == OptionsOf(init, q);
      }
    }
  }

  /** Buckets are non-empty and hold only answers of their own path. */
  predicate BucketsSound(g: Grouping) {
    forall k :: k in g.buckets ==> |g.buckets[k]| > 0 && forall a :: a in g.buckets[k] ==> BucketOf(a) == k
  }

  /** A bucket exists exactly when its options key is listed in its option type record. */
  predicate OrdersListBuckets(g: Grouping) {
    && (forall k :: k in g.buckets ==> k.group in g.orders && k.options in g.orders[k.group])
    && (forall gk, o :: gk in g.orders && o in g.orders[gk] ==> BucketKey(gk, o) in g.buckets)
  }

  predicate OrdersDistinct(g: Grouping) {
    forall gk :: gk in g.orders ==> Distinct(g.orders[gk])
  }

  /** Every bucket's options list is listed once for its question. */
  predicate OptionKeysCover(g: Grouping) {
    && (forall k :: k in g.buckets ==>
          k.group.questionName in g.optionKeys && k.options in g.optionKeys[k.group.questionName])
    && (forall q :: q in g.optionKeys ==> Distinct(g.optionKeys[q]))
  }

  /** The well-formedness the grouping loop keeps. */
  predicate WellFormed(g: Grouping) {
    BucketsSound(g) && OrdersListBuckets(g) && OrdersDistinct(g) && OptionKeysCover(g)
  }

  lemma AddAnswerBucketsSound(g: Grouping, a: Answer)
    requires BucketsSound(g)
    ensures BucketsSound(AddAnswer(g, a))
  {
  }

  lemma AddAnswerOrdersListBuckets(g: Grouping, a: Answer)
    requires OrdersListBuckets(g)
    ensures OrdersListBuckets(AddAnswer(g, a))
  {
    var g', k := AddAnswer(g, a), BucketOf(a);
    forall gk, o | gk in g'.orders && o in g'.orders[gk] ensures BucketKey(gk, o) in g'.buckets {
      if gk != k.group || o != a.options {
        assert gk in g.orders && o in g.orders[gk];
      }
    }
  }

  lemma AddAnswerOrdersDistinct(g: Grouping, a: Answer)
    requires OrdersListBuckets(g) && OrdersDistinct(g)
    ensures OrdersDistinct(AddAnswer(g, a))
  {
    var g', k := AddAnswer(g, a), BucketOf(a);
    forall gk | gk in g'.orders ensures Distinct(g'.orders[gk]) {
      if gk == k.group && k !in g.buckets && gk in g.orders {
        assert a.options !in g.orders[gk];
      }
    }
  }

  lemma AddAnswerOptionKeysCover(g: Grouping, a: Answer)
    requires OptionKeysCover(g)
    ensures OptionKeysCover(AddAnswer(g, a))
  {
  }

  lemma {:induction false} GroupedWellFormed(answers: seq<Answer>)
    ensures WellFormed(Grouped(answers))
  {
    if answers != [] {
      var g, a := Grouped(answers[..|answers| - 1]), answers[|answers| - 1];
      GroupedWellFormed(answers[..|answers| - 1]);
      AddAnswerBucketsSound(g, a);
      AddAnswerOrdersListBuckets(g, a);
      AddAnswerOrdersDistinct(g, a);
      AddAnswerOptionKeysCover(g, a);
    }
  }

  /** A bucket of the grouping exists exactly when its options key is listed for its path. */
  lemma GroupedListed(answers: seq<Answer>, k: BucketKey)
    ensures var g := Grouped(answers);
      k in g.buckets <==> k.group in g.orders && k.options in g.orders[k.group]
  {
    GroupedWellFormed(answers);
  }

  /**
   * The options keys of each option type record are the distinct options lists of the
   * answers at its path, in order of first occurrence.
   */
  lemma {:induction false} GroupedOrders(answers: seq<Answer>, gk: GroupKey)
    ensures gk in Grouped(answers).orders <==> GroupOptions(answers, gk) != []
    ensures gk in Grouped(answers).orders ==> Grouped(answers).orders[gk] == Dedup(GroupOptions(answers, gk))
  {
    if answers != [] {
      var init, a := answers[..|answers| - 1], answers[|answers| - 1];
      GroupedOrders(init, gk);
      if GroupOf(a) == gk {
        GroupedListed(init, BucketOf(a));
        assert GroupOptions(answers, gk) == GroupOptions(init, gk) + [a.options];
        assert (GroupOptions(init, gk) + [a.options])[..|GroupOptions(init, gk)|] == GroupOptions(init, gk);
      } else {
        assert GroupOptions(answers, gk) == GroupOptions(init, gk);
      }
    }
  }

  /** The number of answers held by all buckets together. */
  ghost function TotalSize(m: map<BucketKey, seq<Answer>>): nat
    decreases |m.Keys|
  {
    if m == map[] then 0
    else
      var k :| k in m;
      assert |(m - {k}).Keys| < |m.Keys| by { assert (m - {k}).Keys == m.Keys - {k}; }
      |m[k]| + TotalSize(m - {k})
  }

  /** The total does not depend on which bucket is counted first. */
  lemma {:induction false} TotalSizeRemove(m: map<BucketKey, seq<Answer>>, k: BucketKey)
    requires k in m
    ensures TotalSize(m) == |m[k]| + TotalSize(m - {k})
    decreases |m.Keys|
  {
    var j :| j in m && TotalSize(m) == |m[j]| + TotalSize(m - {j});
    if j != k {
      assert (m - {j}).Keys == m.Keys - {j};
      assert (m - {k}).Keys == m.Keys - {k};
      TotalSizeRemove(m - {j}, k);
      TotalSizeRemove(m - {k}, j);
      assert m - {j} - {k} == m - {k} - {j};
    }
  }

  /** The bucket sizes sum to the number of answers. */
  lemma {:induction false} GroupedSize(answers: seq<Answer>)
    ensures TotalSize(Grouped(answers).buckets) == |answers|
  {
    if answers != [] {
      var init, a := answers[..|answers| - 1], answers[|answers| - 1];
      GroupedSize(init);
      var m, k := Grouped(init).buckets, BucketOf(a);
      var m' := Grouped(answers).buckets;
      assert m' == m[k := (if k in m then m[k] else []) + [a]];
      TotalSizeRemove(m', k);
      assert m' - {k} == m - {k};
      if k in m {
        TotalSizeRemove(m, k);
      } else {
        assert m - {k} == m;
      }
    }
  }

  /**
   * The body of the grouping loop for one answer: the three updates above, in the order
   * `apps/web/app/analysis/page.tsx` makes them.
   */
  method GroupAnswer(optionKeys: map<string, seq<seq<string>>>, orders: map<GroupKey, seq<seq<string>>>,
                     buckets: map<BucketKey, seq<Answer>>, answer: Answer)
    returns (optionKeys': map<string, seq<seq<string>>>, orders': map<GroupKey, seq<seq<string>>>,
             buckets': map<BucketKey, seq<Answer>>)
    ensures Grouping(optionKeys', orders', buckets') == AddAnswer(Grouping(optionKeys, orders, buckets), answer)
  {
    var optionsKey := answer.options;
    var q := answer.questionName;
    optionKeys' := optionKeys;
    if q !in optionKeys' {
      optionKeys' := optionKeys'[q := []];
    }
    if optionsKey !in optionKeys'[q] {
      optionKeys' := optionKeys'[q := optionKeys'[q] + [optionsKey]];
    }
    var k := BucketOf(answer);
    orders', buckets' := orders, buckets;
    if k.group !in orders' {
      orders' := orders'[k.group := []];
    }
    if k !in buckets' {
      orders' := orders'[k.group := orders'[k.group] + [optionsKey]];
      buckets' := buckets'[k := []];
    }
    buckets' := buckets'[k := buckets'[k] + [answer]];
  }

  /** The grouping loop over the stored answers, in order. */
  method GroupAnswers(answers: seq<Answer>) returns (g: Grouping)
    ensures g == Grouped(answers)
  {
    var optionKeysByQuestionName: map<string, seq<seq<string>>> := map[];
    var orders: map<GroupKey, seq<seq<string>>> := map[];
    var buckets: map<BucketKey, seq<Answer>> := map[];
    for i := 0 to |answers|
      invariant Grouping(optionKeysByQuestionName, orders, buckets) == Grouped(answers[..i])
    {
      assert answers[..i + 1][..i] == answers[..i];
      optionKeysByQuestionName, orders, buckets := GroupAnswer(optionKeysByQuestionName, orders, buckets, answers[i]);
    }
    assert answers[..|answers|] == answers;
    g := Grouping(optionKeysByQuestionName, orders, buckets);
  }

  // ---------------------------------------------------------------------------------
  // Stability of one bucket and consistency of one option type record
  // (`consistencyScores` and `stabilityScores` in `apps/web/app/analysis/page.tsx`)

  /** The texts of a bucket's answers, in bucket order. */
  function Texts(bucket: seq<Answer>): seq<string>
  {
    seq(|bucket|, i requires 0 <= i < |bucket| => bucket[i].text)
  }

  /** The value stored at `stabilityScores[model][question][optionType][optionIndex]`. */
  datatype StabilityEntry = StabilityEntry(stability: real, mostCommonAnswer: string, options: seq<string>)

  /**
   * The stability entry of a bucket showing `options`: `Math.max` of its tally over its size,
   * with the first key of the tally (or "") as `mostCommonAnswer`.
   */
  function StabilityOf(bucket: seq<Answer>, options: seq<string>): (e: StabilityEntry)
    requires |bucket| > 0
    ensures 0.0 < e.stability <= 1.0
    ensures e.mostCommonAnswer == bucket[0].text
    ensures e.options == options
  {
    var counts := Tally(Texts(bucket));
    TallyCounts(Texts(bucket));
    MaxValueIsTopMultiplicity(Texts(bucket));
    ShareBounds(MaxValue(counts), 0, |bucket|);
    StabilityEntry(MaxValue(counts) as real / |bucket| as real, if |counts| > 0 then counts[0].0 else "", options)
  }

  /**
   * Stability is the share of the bucket held by its most frequent text, so it lies in
   * (0, 1]; the reported answer is the bucket's first text, and the options are the bucket's.
   */
  lemma StabilityMeaning(bucket: seq<Answer>, options: seq<string>)
    requires |bucket| > 0
    ensures var e, texts := StabilityOf(bucket, options), Texts(bucket);
      && 0.0 < e.stability <= 1.0
      && (exists w :: w in texts && e.stability == multiset(texts)[w] as real / |bucket| as real)
      && (forall w :: multiset(texts)[w] as real / |bucket| as real <= e.stability)
      && e.mostCommonAnswer == bucket[0].text
      && e.options == options
  {
    var texts := Texts(bucket);
    TallyCounts(texts);
    MaxValueIsTopMultiplicity(texts);
    var m := MaxValue(Tally(texts));
    ShareBounds(m, 0, |bucket|);
    forall w ensures multiset(texts)[w] as real / |bucket| as real <= m as real / |bucket| as real {
      ShareBounds(m, multiset(texts)[w], |bucket|);
    }
  }

  /**
   * The stability entry's `mostCommonAnswer` need not be the most frequent text: for the
   * texts Mars, Jupiter, Jupiter it is Mars, while the per-order winner is Jupiter.
   */
  lemma StabilityAnswerIsFirstSeen(a: Answer)
    ensures var bucket := [a.(text := "Mars"), a.(text := "Jupiter"), a.(text := "Jupiter")];
      && StabilityOf(bucket, a.options).mostCommonAnswer == "Mars"
      && StabilityOf(bucket, a.options).stability == 2.0 / 3.0
      && Winner(Texts(bucket)) == "Jupiter"
  {
    var bucket := [a.(text := "Mars"), a.(text := "Jupiter"), a.(text := "Jupiter")];
    var texts := Texts(bucket);
    assert texts == ["Mars", "Jupiter", "Jupiter"];
    assert texts[..1] == ["Mars"] && texts[..2] == ["Mars", "Jupiter"];
    assert "Mars" != "Jupiter" by { assert "Mars"[0] != "Jupiter"[0]; }
    assert Tally(["Mars"]) == [("Mars", 1)];
    assert ["Mars", "Jupiter"][..1] == ["Mars"];
    assert Bump([("Mars", 1)], "Jupiter") == [("Mars", 1)] + Bump([], "Jupiter");
    assert Tally(["Mars", "Jupiter"]) == [("Mars", 1), ("Jupiter", 1)];
    assert Bump([("Mars", 1), ("Jupiter", 1)], "Jupiter") == [("Mars", 1)] + Bump([("Jupiter", 1)], "Jupiter");
    var t := Tally(texts);
    assert t == [("Mars", 1), ("Jupiter", 2)];
    assert t[..1] == [("Mars", 1)];
    assert MaxValue(t) == 2;
    assert MostCommon(t[..1]) == ("Mars", 1);
  }

  /**
   * Consistency across option orders: the largest number of orders that share a winner,
   * over the number of orders; 0 when there are no orders.
   */
  function Consistency(winners: seq<string>): (c: real)
    ensures |winners| == 0 ==> c == 0.0
    ensures |winners| > 0 ==> 0.0 < c <= 1.0
  {
    if |winners| > 0 then
      TallyCounts(winners);
      MaxValueIsTopMultiplicity(winners);
      ShareBounds(MaxValue(Tally(winners)), 0, |winners|);
      MaxValue(Tally(winners)) as real / |winners| as real
    else 0.0
  }

  /** Consistency is 0 without orders, and otherwise the share of the most common winner, in (0, 1]. */
  lemma ConsistencyMeaning(winners: seq<string>)
    ensures |winners| == 0 ==> Consistency(winners) == 0.0
    ensures |winners| > 0 ==>
      && 0.0 < Consistency(winners) <= 1.0
      && (exists w :: w in winners && Consistency(winners) == multiset(winners)[w] as real / |winners| as real)
      && (forall w :: multiset(winners)[w] as real / |winners| as real <= Consistency(winners))
  {
    if |winners| > 0 {
      MaxValueIsTopMultiplicity(winners);
      var m := MaxValue(Tally(winners));
      ShareBounds(m, 0, |winners|);
      forall w ensures multiset(winners)[w] as real / |winners| as real <= m as real / |winners| as real {
        ShareBounds(m, multiset(winners)[w], |winners|);
      }
    }
  }

  /** `Object.values(answersByOrder)`: the winner of each options key of the record, in key order. */
  function Winners(g: Grouping, gk: GroupKey): (winners: seq<string>)
    requires WellFormed(g) && gk in g.orders
    ensures |winners| == |g.orders[gk]|
  {
    var orders := g.orders[gk];
    seq(|orders|, i requires 0 <= i < |orders| => Winner(Texts(g.buckets[BucketKey(gk, orders[i])])))
  }

  /** The key under which a bucket's stability is stored; the index comes from `indexOf`. */
  datatype StabilityKey = StabilityKey(group: GroupKey, optionIndex: int)

  function SKey(g: Grouping, k: BucketKey): StabilityKey
    requires WellFormed(g) && k in g.buckets
  {
    StabilityKey(k.group, IndexOf(g.optionKeys[k.group.questionName], k.options))
  }

  /**
   * The option index of a bucket is a real position of its options list for its question
   * (never -1), and different buckets are stored under different keys.
   */
  lemma SKeyInjective(g: Grouping, k1: BucketKey, k2: BucketKey)
    requires WellFormed(g) && k1 in g.buckets && k2 in g.buckets
    ensures var keys := g.optionKeys[k1.group.questionName];
      0 <= SKey(g, k1).optionIndex < |keys| && keys[SKey(g, k1).optionIndex] == k1.options
    ensures SKey(g, k1) == SKey(g, k2) ==> k1 == k2
  {
    if SKey(g, k1) == SKey(g, k2) {
      IndexOfInjective(g.optionKeys[k1.group.questionName], k1.options, k2.options);
    }
  }

  /** `ss` holds, for exactly the buckets `done`, their stability under their key. */
  ghost predicate Scored(ss: map<StabilityKey, StabilityEntry>, g: Grouping, done: set<BucketKey>)
    requires WellFormed(g) && done <= g.buckets.Keys
  {
    && ss.Keys == (set k | k in done :: SKey(g, k))
    && forall k :: k in done ==> ss[SKey(g, k)] == StabilityOf(g.buckets[k], k.options)
  }

  lemma ScoredAdd(ss: map<StabilityKey, StabilityEntry>, g: Grouping, done: set<BucketKey>, k: BucketKey)
    requires WellFormed(g) && done <= g.buckets.Keys && k in g.buckets
    requires Scored(ss, g, done)
    ensures Scored(ss[SKey(g, k) := StabilityOf(g.buckets[k], k.options)], g, done + {k})
  {
    var ss' := ss[SKey(g, k) := StabilityOf(g.buckets[k], k.options)];
    forall k' | k' in done + {k} ensures ss'[SKey(g, k')] == StabilityOf(g.buckets[k'], k'.options) {
      SKeyInjective(g, k', k);
    }
    assert ss'.Keys == (set k' | k' in done + {k} :: SKey(g, k'));
  }

  /** The bucket paths of the options keys `orders` under the record `gk`. */
  function PrefixKeys(gk: GroupKey, orders: seq<seq<string>>): set<BucketKey> {
    set o | o in orders :: BucketKey(gk, o)
  }

  lemma PrefixKeysStep(gk: GroupKey, orders: seq<seq<string>>, j: nat)
    requires j < |orders|
    ensures PrefixKeys(gk, orders[..j + 1]) == PrefixKeys(gk, orders[..j]) + {BucketKey(gk, orders[j])}
  {
    assert orders[..j + 1] == orders[..j] + [orders[j]];
  }

  /** The buckets of one option type record are those its options keys list. */
  lemma GroupBuckets(g: Grouping, gk: GroupKey)
    requires WellFormed(g) && gk in g.orders
    ensures PrefixKeys(gk, g.orders[gk]) == (set k | k in g.buckets && k.group == gk)
  {
  }

  /** The first loop over one option type record: the most common answer of each option order. */
  method OrderWinners(g: Grouping, gk: GroupKey) returns (answersByOrder: seq<string>)
    requires WellFormed(g) && gk in g.orders
    ensures answersByOrder == Winners(g, gk)
  {
    var orders := g.orders[gk];
    answersByOrder := [];
    for j := 0 to |orders|
      invariant answersByOrder == Winners(g, gk)[..j]
    {
      var counts := CountTexts(Texts(g.buckets[BucketKey(gk, orders[j])]));
      var mostCommonAnswer, maxCount := PickMostCommon(counts);
      assert Winners(g, gk)[..j + 1] == Winners(g, gk)[..j] + [mostCommonAnswer];
      answersByOrder := answersByOrder + [mostCommonAnswer];
    }
  }

  /** The consistency of the per-order winners, as computed from their tally. */
  method CrossOrderConsistency(orderAnswers: seq<string>) returns (consistency: real)
    ensures consistency == Consistency(orderAnswers)
  {
    var crossOrderCounts := CountTexts(orderAnswers);
    TallyCounts(orderAnswers);
    consistency := if |orderAnswers| > 0 then MaxValue(crossOrderCounts) as real / |orderAnswers| as real else 0.0;
  }

  /**
   * The second loop over one option type record: store the stability of each of its buckets,
   * extending the scored buckets `done` by those of `gk`.
   */
  method StoreStabilities(g: Grouping, gk: GroupKey, stabilityScores: map<StabilityKey, StabilityEntry>,
                          ghost done: set<BucketKey>)
    returns (scores: map<StabilityKey, StabilityEntry>)
    requires WellFormed(g) && gk in g.orders && done <= g.buckets.Keys
    requires Scored(stabilityScores, g, done)
    ensures Scored(scores, g, done + (set k | k in g.buckets && k.group == gk))
  {
    var orders := g.orders[gk];
    scores := stabilityScores;
    ghost var scored := done;
    for j := 0 to |orders|
      invariant scored == done + PrefixKeys(gk, orders[..j])
      invariant scored <= g.buckets.Keys
      invariant Scored(scores, g, scored)
    {
      var k := BucketKey(gk, orders[j]);
      var bucket := g.buckets[k];
      var answerCounts := CountTexts(Texts(bucket));
      TallyCounts(Texts(bucket));
      var mostCommonCount := MaxValue(answerCounts);
      var stability := mostCommonCount as real / |bucket| as real;
      var mostCommonAnswer := if |answerCounts| > 0 then answerCounts[0].0 else "";
      var optionIndex := IndexOf(g.optionKeys[gk.questionName], orders[j]);
      var entry := StabilityEntry(stability, mostCommonAnswer, orders[j]);
      assert entry == StabilityOf(bucket, k.options);
      assert StabilityKey(gk, optionIndex) == SKey(g, k);
      ScoredAdd(scores, g, scored, k);
      scores := scores[StabilityKey(gk, optionIndex) := entry];
      PrefixKeysStep(gk, orders, j);
      scored := scored + {k};
    }
    assert orders[..|orders|] == orders;
    GroupBuckets(g, gk);
  }

  /** `cs` holds, for exactly the records `done`, the consistency of their winners. */
  ghost predicate Consistent(cs: map<GroupKey, real>, g: Grouping, done: set<GroupKey>)
    requires WellFormed(g) && done <= g.orders.Keys
  {
    cs.Keys == done && forall gk :: gk in done ==> cs[gk] == Consistency(Winners(g, gk))
  }

  lemma ConsistentAdd(cs: map<GroupKey, real>, g: Grouping, done: set<GroupKey>, gk: GroupKey)
    requires WellFormed(g) && done <= g.orders.Keys && gk in g.orders && gk !in done
    requires Consistent(cs, g, done)
    ensures !Truthy(cs, gk)
    ensures Consistent(cs[gk := Consistency(Winners(g, gk))], g, done + {gk})
  {
  }

  /** JavaScript truthiness of `scores[gk]`: present and not 0. */
  predicate Truthy(scores: map<GroupKey, real>, gk: GroupKey) {
    gk in scores && scores[gk] != 0.0
  }

  /** The buckets whose option type record is no longer pending. */
  function Unscored(g: Grouping, pending: set<GroupKey>): set<BucketKey> {
    set k | k in g.buckets && k.group !in pending
  }

  lemma UnscoredStep(g: Grouping, pending: set<GroupKey>, gk: GroupKey)
    ensures Unscored(g, pending - {gk}) == Unscored(g, pending) + (set k | k in g.buckets && k.group == gk)
  {
  }

  lemma UnscoredNone(g: Grouping)
    ensures Unscored(g, {}) == g.buckets.Keys
  {
  }

  lemma ScoredAll(ss: map<StabilityKey, StabilityEntry>, g: Grouping)
    requires WellFormed(g) && Scored(ss, g, g.buckets.Keys)
    ensures ss.Keys == (set k | k in g.buckets :: SKey(g, k))
    ensures forall k :: k in g.buckets ==> ss[SKey(g, k)] == StabilityOf(g.buckets[k], k.options)
  {
  }

  /**
   * The body of the innermost scoring loops of `apps/web/app/analysis/page.tsx` for one
   * option type record `gk`: the per-order winners, their consistency, written only while
   * no value is present, and the stability of each bucket of the record.
   */
  method ScoreGroup(g: Grouping, gk: GroupKey, stabilityScores: map<StabilityKey, StabilityEntry>,
                    consistencyScores: map<GroupKey, real>, ghost pending: set<GroupKey>)
    returns (stabilityScores': map<StabilityKey, StabilityEntry>, consistencyScores': map<GroupKey, real>)
    requires WellFormed(g) && pending <= g.orders.Keys && gk in pending
    requires Consistent(consistencyScores, g, g.orders.Keys - pending)
    requires Scored(stabilityScores, g, Unscored(g, pending))
    ensures Consistent(consistencyScores', g, g.orders.Keys - (pending - {gk}))
    ensures Scored(stabilityScores', g, Unscored(g, pending - {gk}))
  {
    var answersByOrder := OrderWinners(g, gk);
    var consistency := CrossOrderConsistency(answersByOrder);
    ConsistentAdd(consistencyScores, g, g.orders.Keys - pending, gk);
    assert g.orders.Keys - pending + {gk} == g.orders.Keys - (pending - {gk});
    consistencyScores' := consistencyScores;
    if !Truthy(consistencyScores', gk) {
      consistencyScores' := consistencyScores'[gk := consistency];
    }
    stabilityScores' := StoreStabilities(g, gk, stabilityScores, Unscored(g, pending));
    UnscoredStep(g, pending, gk);
  }

  /** The loops over the grouped answers: every option type record is scored once. */
  method ScoreGroups(g: Grouping) returns (stabilityScores: map<StabilityKey, StabilityEntry>,
                                          consistencyScores: map<GroupKey, real>)
    requires WellFormed(g)
    ensures consistencyScores.Keys == g.orders.Keys
    ensures forall gk :: gk in g.orders ==> consistencyScores[gk] == Consistency(Winners(g, gk))
    ensures stabilityScores.Keys == (set k | k in g.buckets :: SKey(g, k))
    ensures forall k :: k in g.buckets ==> stabilityScores[SKey(g, k)] == StabilityOf(g.buckets[k], k.options)
  {
    stabilityScores, consistencyScores := map[], map[];
    var pending := g.orders.Keys;
    while pending != {}
      invariant pending <= g.orders.Keys
      invariant Consistent(consistencyScores, g, g.orders.Keys - pending)
      invariant Scored(stabilityScores, g, Unscored(g, pending))
      decreases |pending|
    {
      var gk :| gk in pending;
      stabilityScores, consistencyScores := ScoreGroup(g, gk, stabilityScores, consistencyScores, pending);
      pending := pending - {gk};
    }
    UnscoredNone(g);
    ScoredAll(stabilityScores, g);
  }

  // ---------------------------------------------------------------------------------
  // The whole computation

  /**
   * The page's computation on the stored answers: group them, then score every option type
   * record. The tables hold exactly one consistency per (question, model, option type) seen
   * and one stability entry per bucket, under its options list's index for its question.
   */
  method Analyze(answers: seq<Answer>) returns (stabilityScores: map<StabilityKey, StabilityEntry>,
                                               consistencyScores: map<GroupKey, real>)
    ensures WellFormed(Grouped(answers))
    ensures consistencyScores.Keys == Grouped(answers).orders.Keys
    ensures forall gk :: gk in consistencyScores ==>
              consistencyScores[gk] == Consistency(Winners(Grouped(answers), gk))
    ensures stabilityScores.Keys == (set k | k in Grouped(answers).buckets :: SKey(Grouped(answers), k))
    ensures forall k :: k in Grouped(answers).buckets ==>
              stabilityScores[SKey(Grouped(answers), k)] == StabilityOf(Grouped(answers).buckets[k], k.options)
  {
    var g := GroupAnswers(answers);
    GroupedWellFormed(answers);
    stabilityScores, consistencyScores := ScoreGroups(g);
  }

  /**
   * Over the grouped answers every consistency lies in (0, 1], since each option type record
   * lists at least one options key; every stability lies in (0, 1], reports the bucket's first
   * text, carries the bucket's options and is stored under a non-negative option index.
   */
  lemma AnalysisScoresInRange(answers: seq<Answer>, gk: GroupKey, k: BucketKey)
    ensures WellFormed(Grouped(answers))
    ensures gk in Grouped(answers).orders ==> 0.0 < Consistency(Winners(Grouped(answers), gk)) <= 1.0
    ensures k in Grouped(answers).buckets ==>
      var e := StabilityOf(Grouped(answers).buckets[k], k.options);
      && Grouped(answers).buckets[k] == Filter(answers, k)
      && 0.0 < e.stability <= 1.0
      && e.mostCommonAnswer == Filter(answers, k)[0].text
      && e.options == k.options
      && SKey(Grouped(answers), k).optionIndex >= 0
  {
    var g := Grouped(answers);
    GroupedWellFormed(answers);
    if gk in g.orders {
      GroupedOrders(answers, gk);
      DedupFirstSeen(GroupOptions(answers, gk));
      assert GroupOptions(answers, gk)[0] in Dedup(GroupOptions(answers, gk));
      ConsistencyMeaning(Winners(g, gk));
    }
    if k in g.buckets {
      GroupedBucket(answers, k);
      StabilityMeaning(g.buckets[k], k.options);
      SKeyInjective(g, k, k);
    }
  }
}
