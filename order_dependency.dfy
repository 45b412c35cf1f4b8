/**
 * The order-dependency evaluation: rotate a question's options, ask a model the same
 * rotated question `nEvals` times with bounded retries, and upsert every answer into
 * the `Answer` table under (question, model, option style, shown options, trial index).
 *
 * The model call is an oracle: a total function from a call to the outcome of that
 * attempt. A call records what the model client receives (the question with the shown
 * options, the prefixes and the model) and which attempt of which trial of which
 * rotation it is, so that every attempt of a run may have its own outcome.
 */
module OrderDependency {
  import opened AnswerStore

  datatype Question = Question(name: string, question: string, options: seq<string>)

  /** A named option style: positional prefixes such as "A. ", "B. ", ... */
  datatype OptionPrefixes = OptionPrefixes(name: string, prefixes: seq<string>)

  /** Which attempt of which trial of which rotation a model call is. */
  datatype Draw = Draw(optionIndex: nat, trial: nat, attempt: nat)

  datatype Call = Call(question: Question, prefixes: seq<string>, model: ModelName, draw: Draw)

  /** One attempt either throws or returns the answer text. */
  datatype Attempt = Threw(error: string) | Answered(text: string)

  type Oracle = Call -> Attempt

  /** A trial either returns a text or rethrows the error of its last attempt. */
  datatype TrialResult = Done(text: string) | Failed(error: string)

  /** How an awaited `getAnswers` or `evaluateOrderDependency` ends. */
  datatype Outcome = Resolved | Rejected(error: string)

  datatype Collected = Collected(answers: seq<string>) | CollectFailed(error: string)

  const MAX_RETRIES: nat := 10

  /**
   * What the model client promises: a returned text is one of the options it was shown
   * (the answer schema is an enumeration of the question's options).
   */
  ghost predicate Honest(oracle: Oracle) {
    forall c :: oracle(c).Answered? ==> oracle(c).text in c.question.options
  }

  // ---------------------------------------------------------------------------------
  // shiftOptions

  /** Cyclic left rotation: entry `index` is `options[(index + numShifts) % len]`. */
  function Shift(options: seq<string>, numShifts: nat): (shifted: seq<string>)
    ensures |shifted| == |options|
    ensures |options| > 0 ==> shifted[0] == options[numShifts % |options|]
  {
    seq(|options|, index requires 0 <= index < |options| => options[(index + numShifts) % |options|])
  }

  /** A shift is the suffix from `numShifts mod len` followed by the prefix before it. */
  lemma ShiftIsRotation(options: seq<string>, numShifts: nat)
    requires |options| > 0
    ensures var j := numShifts % |options|;
      Shift(options, numShifts) == options[j..] + options[..j]
  {
    var n, j := |options|, numShifts % |options|;
    var r := options[j..] + options[..j];
    forall i | 0 <= i < n
      ensures Shift(options, numShifts)[i] == r[i]
    {
      ModAdd(numShifts, i, n);
      assert (i + numShifts) % n == (j + i) % n;
      if j + i < n {
        ModUnique(j + i, n, 0, j + i);
      } else {
        ModUnique(j + i, n, 1, j + i - n);
      }
    }
  }

  lemma MulBounds(d: int, n: int)
    requires n >= 0
    ensures d >= 1 ==> d * n >= n
    ensures d <= -1 ==> d * n <= -n
  {
    assert d * n == (d - 1) * n + n;
    assert d * n == (d + 1) * n - n;
  }

  /** The remainder is determined by any quotient/remainder decomposition. */
  lemma ModUnique(x: nat, n: nat, q: int, rem: int)
    requires n > 0 && 0 <= rem < n && x == q * n + rem
    ensures x % n == rem
  {
    var d := x / n - q;
    assert x == (x / n) * n + x % n;
    assert d * n == (x / n) * n - q * n;
    assert d * n == rem - x % n;
    MulBounds(d, n);
  }

  lemma ModAdd(x: nat, k: nat, n: nat)
    requires n > 0
    ensures (x + k) % n == (x % n + k) % n
  {
    var q1 := x / n;
    assert x == q1 * n + x % n;
    var m := (x % n + k) % n;
    var q2 := (x % n + k) / n;
    assert x % n + k == q2 * n + m;
    assert x + k == (q1 + q2) * n + m by {
      assert (q1 + q2) * n == q1 * n + q2 * n;
    }
    ModUnique(x + k, n, q1 + q2, m);
  }

  /** A shift loses and duplicates nothing: it is a permutation of the options. */
  lemma ShiftIsPermutation(options: seq<string>, numShifts: nat)
    ensures |Shift(options, numShifts)| == |options|
    ensures multiset(Shift(options, numShifts)) == multiset(options)
  {
    if |options| > 0 {
      var j := numShifts % |options|;
      ShiftIsRotation(options, numShifts);
      assert options == options[..j] + options[j..];
      assert multiset(options) == multiset(options[..j]) + multiset(options[j..]);
    }
  }

  /** Shifting by 0, or by the length, gives the options back. */
  lemma ShiftIdentity(options: seq<string>)
    ensures Shift(options, 0) == options
    ensures Shift(options, |options|) == options
  {
    var n := |options|;
    forall i | 0 <= i < n
      ensures Shift(options, 0)[i] == options[i] && Shift(options, n)[i] == options[i]
    {
      ModUnique(i, n, 0, i);
      ModUnique(i + n, n, 1, i);
    }
  }

  /** Shifts compose: shifting by `a` and then by `b` is shifting by `a + b`. */
  lemma ShiftCompose(options: seq<string>, a: nat, b: nat)
    ensures Shift(Shift(options, a), b) == Shift(options, a + b)
  {
    var n := |options|;
    forall i | 0 <= i < n
      ensures Shift(Shift(options, a), b)[i] == Shift(options, a + b)[i]
    {
      ModAdd(i + b, a, n);
      assert i + b + a == i + (a + b);
    }
  }

  /** With distinct options and at least four of them, rotations 0..3 are four different lists. */
  lemma DistinctRotations(options: seq<string>, a: nat, b: nat)
    requires 4 <= |options|
    requires forall i, j :: 0 <= i < j < |options| ==> options[i] != options[j]
    requires a < 4 && b < 4 && a != b
    ensures Shift(options, a) != Shift(options, b)
  {
    ModUnique(a, |options|, 0, a);
    ModUnique(b, |options|, 0, b);
    assert Shift(options, a)[0] == options[a];
    assert Shift(options, b)[0] == options[b];
  }

  // ---------------------------------------------------------------------------------
  // evaluateOrderDependency: the rotation series

  /** The four option orders that are evaluated: the original list and its shifts by 1, 2, 3. */
  function OptionSeries(original: seq<string>): (series: seq<seq<string>>)
    ensures |series| == 4
  {
    [original, Shift(original, 1), Shift(original, 2), Shift(original, 3)]
  }

  /** Entry r of the series is the shift by r, and each entry has the original's elements. */
  lemma OptionSeriesIsRotations(original: seq<string>, r: nat)
    requires r < 4
    ensures OptionSeries(original)[r] == Shift(original, r)
    ensures multiset(OptionSeries(original)[r]) == multiset(original)
  {
    if r == 0 {
      ShiftIdentity(original);
    }
    ShiftIsPermutation(original, r);
  }

  /** The question as shown for rotation r: the same name and prompt, rotated options. */
  function Rotated(question: Question, r: nat): Question
    requires r < 4
  {
    Question(question.name, question.question, OptionSeries(question.options)[r])
  }

  // ---------------------------------------------------------------------------------
  // getAnswers: one trial with bounded retries

  /** The outcomes of the `MAX_RETRIES` attempts that trial `trial` may make. */
  function Attempts(oracle: Oracle, question: Question, prefixes: seq<string>, model: ModelName,
                    optionIndex: nat, trial: nat): (s: seq<Attempt>)
    ensures |s| == MAX_RETRIES
  {
    seq(MAX_RETRIES, a requires 0 <= a => oracle(Call(question, prefixes, model, Draw(optionIndex, trial, a))))
  }

  /** The retry loop: the first returned text, or the last attempt's error once all have thrown. */
  function FirstAnswer(attempts: seq<Attempt>): TrialResult
    requires |attempts| > 0
  {
    match attempts[0]
    case Answered(text) => Done(text)
    case Threw(error) => if |attempts| == 1 then Failed(error) else FirstAnswer(attempts[1..])
  }

  /** A trial returns `v` exactly when some attempt returns `v` and every attempt before it threw. */
  lemma {:induction false} FirstAnswerDone(attempts: seq<Attempt>, v: string)
    requires |attempts| > 0
    ensures FirstAnswer(attempts) == Done(v) <==>
      exists j :: 0 <= j < |attempts| && attempts[j] == Answered(v) &&
        forall i :: 0 <= i < j ==> attempts[i].Threw?
  {
    if attempts[0].Threw? && |attempts| > 1 {
      var tail := attempts[1..];
      FirstAnswerDone(tail, v);
      if FirstAnswer(attempts) == Done(v) {
        var j :| 0 <= j < |tail| && tail[j] == Answered(v) && forall i :: 0 <= i < j ==> tail[i].Threw?;
        assert attempts[j + 1] == Answered(v);
        forall i | 0 <= i < j + 1 ensures attempts[i].Threw? {
          if i > 0 { assert attempts[i] == tail[i - 1]; }
        }
      }
      if exists j :: 0 <= j < |attempts| && attempts[j] == Answered(v) && forall i :: 0 <= i < j ==> attempts[i].Threw? {
        var j :| 0 <= j < |attempts| && attempts[j] == Answered(v) && forall i :: 0 <= i < j ==> attempts[i].Threw?;
        assert tail[j - 1] == Answered(v);
        forall i | 0 <= i < j - 1 ensures tail[i].Threw? { assert tail[i] == attempts[i + 1]; }
      }
    }
  }

  /** A trial fails exactly when every attempt threw, and it rethrows the last attempt's error. */
  lemma {:induction false} FirstAnswerFailed(attempts: seq<Attempt>)
    requires |attempts| > 0
    ensures FirstAnswer(attempts).Failed? <==> forall i :: 0 <= i < |attempts| ==> attempts[i].Threw?
    ensures FirstAnswer(attempts).Failed? ==> FirstAnswer(attempts).error == attempts[|attempts| - 1].error
  {
    if attempts[0].Threw? && |attempts| > 1 {
      FirstAnswerFailed(attempts[1..]);
      assert forall i :: 1 <= i < |attempts| ==> attempts[i] == attempts[1..][i - 1];
    }
  }

  /** One trial: call the model up to `MAX_RETRIES` times and return the first answer. */
  method RunTrial(oracle: Oracle, question: Question, prefixes: seq<string>, model: ModelName,
                  optionIndex: nat, trial: nat) returns (r: TrialResult)
    ensures r == FirstAnswer(Attempts(oracle, question, prefixes, model, optionIndex, trial))
  {
    ghost var attempts := Attempts(oracle, question, prefixes, model, optionIndex, trial);
    var i := 0;
    while true
      invariant 0 <= i < MAX_RETRIES
      invariant FirstAnswer(attempts) == FirstAnswer(attempts[i..])
      decreases MAX_RETRIES - i
    {
      var attempt := oracle(Call(question, prefixes, model, Draw(optionIndex, trial, i)));
      assert attempt == attempts[i..][0];
      match attempt {
        case Answered(text) =>
          return Done(text);
        case Threw(error) =>
          if i == MAX_RETRIES - 1 {
            return Failed(error);
          }
      }
      assert attempts[i..][1..] == attempts[i + 1..];
      i := i + 1;
    }
  }


  // ---------------------------------------------------------------------------------
  // getAnswers: nEvals trials joined by index

  /** The result of trial `trial` of rotation `optionIndex` for the shown question. */
  function Trial(oracle: Oracle, question: Question, prefixes: seq<string>, model: ModelName,
                 optionIndex: nat, trial: nat): TrialResult
  {
    FirstAnswer(Attempts(oracle, question, prefixes, model, optionIndex, trial))
  }

  /** The first `n` trials joined in index order, or the error of the first trial that failed. */
  function Collect(oracle: Oracle, question: Question, prefixes: seq<string>, model: ModelName,
                   optionIndex: nat, n: nat): Collected
  {
    if n == 0 then Collected([])
    else
      match Collect(oracle, question, prefixes, model, optionIndex, n - 1)
      case CollectFailed(e) => CollectFailed(e)
      case Collected(prev) =>
        match Trial(oracle, question, prefixes, model, optionIndex, n - 1)
        case Failed(e) => CollectFailed(e)
        case Done(v) => Collected(prev + [v])
  }

  /**
   * The join succeeds exactly when every trial returns; then slot t holds trial t's text.
   * Otherwise the error is that of the lowest-numbered failing trial.
   */
  lemma {:induction false} CollectSlots(oracle: Oracle, question: Question, prefixes: seq<string>,
                                        model: ModelName, optionIndex: nat, n: nat)
    ensures var c := Collect(oracle, question, prefixes, model, optionIndex, n);
      && (c.Collected? <==> forall t :: 0 <= t < n ==> Trial(oracle, question, prefixes, model, optionIndex, t).Done?)
      && (c.Collected? ==>
            && |c.answers| == n
            && forall t :: 0 <= t < n ==> c.answers[t] == Trial(oracle, question, prefixes, model, optionIndex, t).text)
      && (c.CollectFailed? ==>
            exists t :: 0 <= t < n && Trial(oracle, question, prefixes, model, optionIndex, t) == Failed(c.error) &&
              forall u :: 0 <= u < t ==> Trial(oracle, question, prefixes, model, optionIndex, u).Done?)
  {
    if n > 0 {
      CollectSlots(oracle, question, prefixes, model, optionIndex, n - 1);
    }
  }

  /** Once a prefix of the trials has failed, every longer join fails with the same error. */
  lemma {:induction false} CollectFailureSticks(oracle: Oracle, question: Question, prefixes: seq<string>,
                                                model: ModelName, optionIndex: nat, t: nat, n: nat)
    requires t <= n
    requires Collect(oracle, question, prefixes, model, optionIndex, t).CollectFailed?
    ensures Collect(oracle, question, prefixes, model, optionIndex, n) == Collect(oracle, question, prefixes, model, optionIndex, t)
    decreases n - t
  {
    if t < n {
      CollectFailureSticks(oracle, question, prefixes, model, optionIndex, t + 1, n);
    }
  }

  /** With an honest model client, every collected text is one of the options shown. */
  lemma CollectHonest(oracle: Oracle, question: Question, prefixes: seq<string>,
                      model: ModelName, optionIndex: nat, n: nat)
    requires Honest(oracle)
    ensures var c := Collect(oracle, question, prefixes, model, optionIndex, n);
      c.Collected? ==> |c.answers| == n && forall t :: 0 <= t < n ==> c.answers[t] in question.options
  {
    CollectSlots(oracle, question, prefixes, model, optionIndex, n);
    var c := Collect(oracle, question, prefixes, model, optionIndex, n);
    if c.Collected? {
      forall t | 0 <= t < n ensures c.answers[t] in question.options {
        TrialHonest(oracle, question, prefixes, model, optionIndex, t);
      }
    }
  }

  /** With an honest model client, a trial that returns returns one of the options shown. */
  lemma TrialHonest(oracle: Oracle, question: Question, prefixes: seq<string>,
                    model: ModelName, optionIndex: nat, t: nat)
    requires Honest(oracle)
    ensures var tr := Trial(oracle, question, prefixes, model, optionIndex, t);
      tr.Done? ==> tr.text in question.options
  {
    var attempts := Attempts(oracle, question, prefixes, model, optionIndex, t);
    var tr := FirstAnswer(attempts);
    if tr.Done? {
      FirstAnswerDone(attempts, tr.text);
      var j :| 0 <= j < |attempts| && attempts[j] == Answered(tr.text) &&
        forall i :: 0 <= i < j ==> attempts[i].Threw?;
      assert attempts[j] == oracle(Call(question, prefixes, model, Draw(optionIndex, t, j)));
    }
  }

  /** The fan-out of `nEvals` trials, each result stored in the slot of its trial index. */
  method CollectAnswers(oracle: Oracle, question: Question, prefixes: seq<string>, model: ModelName,
                        optionIndex: nat, nEvals: nat) returns (c: Collected)
    ensures c == Collect(oracle, question, prefixes, model, optionIndex, nEvals)
  {
    var rawAnswers := new string[nEvals];
    for t := 0 to nEvals
      invariant Collect(oracle, question, prefixes, model, optionIndex, t) == Collected(rawAnswers[..t])
    {
      var r := RunTrial(oracle, question, prefixes, model, optionIndex, t);
      if r.Failed? {
        CollectFailureSticks(oracle, question, prefixes, model, optionIndex, t + 1, nEvals);
        return CollectFailed(r.error);
      }
      rawAnswers[t] := r.text;
      assert rawAnswers[..t + 1] == rawAnswers[..t] + [r.text];
    }
    assert rawAnswers[..] == rawAnswers[..nEvals];
    c := Collected(rawAnswers[..]);
  }

  // ---------------------------------------------------------------------------------
  // getAnswers: the writes

  function RowKey(question: Question, model: ModelName, style: OptionPrefixes, index: nat): AnswerKey {
    AnswerKey(question.name, model, style.name, question.options, index)
  }

  function NewRow(question: Question, model: ModelName, style: OptionPrefixes, optionIndex: nat,
                  text: string, index: nat): Answer {
    Answer(question.name, model, style.name, question.options, optionIndex, text, index)
  }

  /** `k` is the key of one of the non-empty slots 0..n-1. */
  predicate WrittenKey(k: AnswerKey, question: Question, model: ModelName, style: OptionPrefixes,
                       raw: seq<string>, n: nat)
    requires n <= |raw|
  {
    k == RowKey(question, model, style, k.index) && k.index < n && raw[k.index] != ""
  }

  /** The table after the writes for slots 0..n-1: each non-empty answer is upserted, "" is skipped. */
  function Written(rows: map<AnswerKey, Answer>, question: Question, model: ModelName,
                   style: OptionPrefixes, optionIndex: nat, raw: seq<string>, n: nat): map<AnswerKey, Answer>
    requires n <= |raw|
  {
    if n == 0 then rows
    else
      var prev := Written(rows, question, model, style, optionIndex, raw, n - 1);
      if raw[n - 1] == "" then prev
      else Upserted(prev, RowKey(question, model, style, n - 1),
                    NewRow(question, model, style, optionIndex, raw[n - 1], n - 1), raw[n - 1])
  }

  /** A key that none of the non-empty slots 0..n-1 maps to is exactly as it was before the writes. */
  lemma {:induction false} WrittenFrame(rows: map<AnswerKey, Answer>, question: Question, model: ModelName,
                                        style: OptionPrefixes, optionIndex: nat, raw: seq<string>, n: nat, k: AnswerKey)
    requires n <= |raw|
    requires !WrittenKey(k, question, model, style, raw, n)
    ensures var w := Written(rows, question, model, style, optionIndex, raw, n);
      (k in w <==> k in rows) && (k in rows ==> w[k] == rows[k])
  {
    if n > 0 {
      WrittenFrame(rows, question, model, style, optionIndex, raw, n - 1, k);
    }
  }

  /** The writes add no key other than those of the non-empty slots. */
  lemma {:induction false} WrittenKeysOnly(rows: map<AnswerKey, Answer>, question: Question, model: ModelName,
                                           style: OptionPrefixes, optionIndex: nat, raw: seq<string>, n: nat, k: AnswerKey)
    requires n <= |raw|
    requires k in Written(rows, question, model, style, optionIndex, raw, n)
    ensures k in rows || WrittenKey(k, question, model, style, raw, n)
  {
    if n > 0 && k !in Written(rows, question, model, style, optionIndex, raw, n - 1) {
      assert k == RowKey(question, model, style, n - 1);
    } else if n > 0 {
      WrittenKeysOnly(rows, question, model, style, optionIndex, raw, n - 1, k);
    }
  }

  /**
   * After the writes for slots 0..n-1, a non-empty slot i has a row under its key:
   * a row that was there before gets only slot i's text, a new row is the full record.
   */
  lemma {:induction false} WrittenSlot(rows: map<AnswerKey, Answer>, question: Question, model: ModelName,
                                       style: OptionPrefixes, optionIndex: nat, raw: seq<string>, n: nat, i: nat)
    requires i < n <= |raw|
    requires raw[i] != ""
    ensures var w := Written(rows, question, model, style, optionIndex, raw, n);
      var k := RowKey(question, model, style, i);
      k in w && w[k] == (if k in rows then rows[k].(text := raw[i])
                         else NewRow(question, model, style, optionIndex, raw[i], i))
  {
    if i == n - 1 {
      WrittenFrame(rows, question, model, style, optionIndex, raw, n - 1, RowKey(question, model, style, i));
    } else {
      WrittenSlot(rows, question, model, style, optionIndex, raw, n - 1, i);
    }
  }

  /** Slots holding "" write nothing: with no non-empty slot the table is unchanged. */
  lemma {:induction false} WrittenEmpty(rows: map<AnswerKey, Answer>, question: Question, model: ModelName,
                                        style: OptionPrefixes, optionIndex: nat, raw: seq<string>, n: nat)
    requires n <= |raw|
    requires forall i :: 0 <= i < n ==> raw[i] == ""
    ensures Written(rows, question, model, style, optionIndex, raw, n) == rows
  {
    if n > 0 {
      WrittenEmpty(rows, question, model, style, optionIndex, raw, n - 1);
    }
  }

  /** The writes store every row under its own unique key, as the table's unique index demands. */
  lemma {:induction false} WrittenKeyed(rows: map<AnswerKey, Answer>, question: Question, model: ModelName,
                                        style: OptionPrefixes, optionIndex: nat, raw: seq<string>, n: nat)
    requires n <= |raw|
    requires Keyed(rows)
    ensures Keyed(Written(rows, question, model, style, optionIndex, raw, n))
  {
    if n > 0 {
      WrittenKeyed(rows, question, model, style, optionIndex, raw, n - 1);
      var prev := Written(rows, question, model, style, optionIndex, raw, n - 1);
      if raw[n - 1] != "" {
        UpsertKeepsKeyed(prev, RowKey(question, model, style, n - 1),
                         NewRow(question, model, style, optionIndex, raw[n - 1], n - 1), raw[n - 1]);
      }
    }
  }

  /** Writes the non-empty answers, one upsert per slot, in index order. */
  method WriteAnswers(db: AnswerTable, question: Question, model: ModelName, style: OptionPrefixes,
                      optionIndex: nat, rawAnswers: seq<string>)
    modifies db
    ensures db.rows == Written(old(db.rows), question, model, style, optionIndex, rawAnswers, |rawAnswers|)
  {
    for index := 0 to |rawAnswers|
      invariant db.rows == Written(old(db.rows), question, model, style, optionIndex, rawAnswers, index)
    {
      var rawAnswer := rawAnswers[index];
      if rawAnswer != "" {
        var answer := NewRow(question, model, style, optionIndex, rawAnswer, index);
        db.Upsert(RowKey(question, model, style, index), answer, rawAnswer);
      }
    }
  }

  // ---------------------------------------------------------------------------------
  // getAnswers as a whole

  /** The table and outcome after one awaited `getAnswers`. */
  function GetAnswersSpec(rows: map<AnswerKey, Answer>, oracle: Oracle, question: Question, nEvals: nat,
                          style: OptionPrefixes, optionIndex: nat, model: ModelName): (map<AnswerKey, Answer>, Outcome)
  {
    match Collect(oracle, question, style.prefixes, model, optionIndex, nEvals)
    case CollectFailed(e) => (rows, Rejected(e))
    case Collected(raw) => (Written(rows, question, model, style, optionIndex, raw, |raw|), Resolved)
  }

  /** Ask `nEvals` times, then upsert every non-empty answer; a trial that fails rejects before any write. */
  method GetAnswers(db: AnswerTable, oracle: Oracle, question: Question, nEvals: nat,
                    style: OptionPrefixes, optionIndex: nat, model: ModelName) returns (outcome: Outcome)
    modifies db
    ensures (db.rows, outcome) == GetAnswersSpec(old(db.rows), oracle, question, nEvals, style, optionIndex, model)
  {
    var c := CollectAnswers(oracle, question, style.prefixes, model, optionIndex, nEvals);
    match c {
      case CollectFailed(e) =>
        return Rejected(e);
      case Collected(rawAnswers) =>
        WriteAnswers(db, question, model, style, optionIndex, rawAnswers);
        return Resolved;
    }
  }

  /**
   * `getAnswers` rejects exactly when some trial exhausts its retries, and then writes
   * nothing; when it resolves, the row of every trial with a non-empty text holds that
   * text, and a key that is not one of those trials' keys is unchanged.
   */
  lemma GetAnswersEffect(rows: map<AnswerKey, Answer>, oracle: Oracle, question: Question, nEvals: nat,
                         style: OptionPrefixes, optionIndex: nat, model: ModelName)
    ensures var (w, o) := GetAnswersSpec(rows, oracle, question, nEvals, style, optionIndex, model);
      && (o.Rejected? <==> exists t :: 0 <= t < nEvals && Trial(oracle, question, style.prefixes, model, optionIndex, t).Failed?)
      && (o.Rejected? ==> w == rows)
      && (o.Resolved? ==> forall t :: 0 <= t < nEvals ==>
            var v := Trial(oracle, question, style.prefixes, model, optionIndex, t).text;
            v != "" ==> RowKey(question, model, style, t) in w && w[RowKey(question, model, style, t)].text == v)
      && (o.Resolved? ==> forall k :: k in rows && k.options != question.options ==> k in w && w[k] == rows[k])
  {
    CollectSlots(oracle, question, style.prefixes, model, optionIndex, nEvals);
    var c := Collect(oracle, question, style.prefixes, model, optionIndex, nEvals);
    if c.Collected? {
      forall t | 0 <= t < nEvals && c.answers[t] != ""
        ensures var w := Written(rows, question, model, style, optionIndex, c.answers, nEvals);
          RowKey(question, model, style, t) in w && w[RowKey(question, model, style, t)].text == c.answers[t]
      {
        WrittenSlot(rows, question, model, style, optionIndex, c.answers, nEvals, t);
      }
      forall k | k in rows && k.options != question.options
        ensures var w := Written(rows, question, model, style, optionIndex, c.answers, nEvals);
          k in w && w[k] == rows[k]
      {
        WrittenFrame(rows, question, model, style, optionIndex, c.answers, nEvals, k);
      }
    }
  }

  // ---------------------------------------------------------------------------------
  // evaluateOrderDependency

  /** The table and outcome after rotations 0..count-1, stopping at the first rejection. */
  function EvaluateUpTo(rows: map<AnswerKey, Answer>, oracle: Oracle, question: Question, nEvals: nat,
                        style: OptionPrefixes, model: ModelName, count: nat): (map<AnswerKey, Answer>, Outcome)
    requires count <= 4
  {
    if count == 0 then (rows, Resolved)
    else
      var (prev, o) := EvaluateUpTo(rows, oracle, question, nEvals, style, model, count - 1);
      if o.Rejected? then (prev, o)
      else GetAnswersSpec(prev, oracle, Rotated(question, count - 1), nEvals, style, count - 1, model)
  }

  /** The table and outcome after one awaited `evaluateOrderDependency`. */
  function Evaluate(rows: map<AnswerKey, Answer>, oracle: Oracle, question: Question, nEvals: nat,
                    style: OptionPrefixes, model: ModelName): (map<AnswerKey, Answer>, Outcome)
  {
    EvaluateUpTo(rows, oracle, question, nEvals, style, model, 4)
  }

  /** Evaluate the four rotations one after the other, each tagged with its rotation number. */
  method EvaluateOrderDependency(db: AnswerTable, oracle: Oracle, question: Question, nEvals: nat,
                                 style: OptionPrefixes, model: ModelName) returns (outcome: Outcome)
    modifies db
    ensures (db.rows, outcome) == Evaluate(old(db.rows), oracle, question, nEvals, style, model)
  {
    var originalOptions := question.options;
    var optionSeries := [originalOptions, Shift(originalOptions, 1), Shift(originalOptions, 2), Shift(originalOptions, 3)];
    for index := 0 to |optionSeries|
      invariant (db.rows, Resolved) == EvaluateUpTo(old(db.rows), oracle, question, nEvals, style, model, index)
    {
      var shiftedQuestion := Question(question.name, question.question, optionSeries[index]);
      assert shiftedQuestion == Rotated(question, index);
      var o := GetAnswers(db, oracle, shiftedQuestion, nEvals, style, index, model);
      if o.Rejected? {
        RejectionIsFinal(old(db.rows), oracle, question, nEvals, style, model, index + 1);
        return o;
      }
    }
    outcome := Resolved;
  }

  /** Once a rotation rejects, the later rotations are not run: table and error stay as they are. */
  lemma {:induction false} RejectionIsFinal(rows: map<AnswerKey, Answer>, oracle: Oracle, question: Question,
                                            nEvals: nat, style: OptionPrefixes, model: ModelName, count: nat)
    requires count <= 4
    requires EvaluateUpTo(rows, oracle, question, nEvals, style, model, count).1.Rejected?
    ensures Evaluate(rows, oracle, question, nEvals, style, model) ==
            EvaluateUpTo(rows, oracle, question, nEvals, style, model, count)
    decreases 4 - count
  {
    if count < 4 {
      RejectionIsFinal(rows, oracle, question, nEvals, style, model, count + 1);
    }
  }

  /**
   * When rotation r is the first to reject, the run rejects with its error and the table
   * holds exactly what rotations 0..r-1 wrote: nothing of rotation r or later.
   */
  lemma AbortAtRotation(rows: map<AnswerKey, Answer>, oracle: Oracle, question: Question,
                        nEvals: nat, style: OptionPrefixes, model: ModelName, r: nat)
    requires r < 4
    requires EvaluateUpTo(rows, oracle, question, nEvals, style, model, r).1 == Resolved
    requires Collect(oracle, Rotated(question, r), style.prefixes, model, r, nEvals).CollectFailed?
    ensures Evaluate(rows, oracle, question, nEvals, style, model) ==
            (EvaluateUpTo(rows, oracle, question, nEvals, style, model, r).0,
             Rejected(Collect(oracle, Rotated(question, r), style.prefixes, model, r, nEvals).error))
  {
    RejectionIsFinal(rows, oracle, question, nEvals, style, model, r + 1);
  }

  /** A model client that always throws: with at least one trial, the run rejects and writes nothing. */
  lemma AlwaysFailingWritesNothing(rows: map<AnswerKey, Answer>, oracle: Oracle, question: Question,
                                   nEvals: nat, style: OptionPrefixes, model: ModelName)
    requires nEvals > 0
    requires forall c :: oracle(c).Threw?
    ensures Evaluate(rows, oracle, question, nEvals, style, model).0 == rows
    ensures Evaluate(rows, oracle, question, nEvals, style, model).1.Rejected?
  {
    var q0 := Rotated(question, 0);
    var attempts := Attempts(oracle, q0, style.prefixes, model, 0, 0);
    forall i | 0 <= i < |attempts| ensures attempts[i].Threw? {
      assert attempts[i] == oracle(Call(q0, style.prefixes, model, Draw(0, 0, i)));
    }
    FirstAnswerFailed(attempts);
    assert Trial(oracle, q0, style.prefixes, model, 0, 0).Failed?;
    CollectSlots(oracle, q0, style.prefixes, model, 0, nEvals);
    AbortAtRotation(rows, oracle, question, nEvals, style, model, 0);
  }

  /**
   * With an honest client, a row that a run adds or changes holds one of the options
   * shown for it, and those are the question's own options in rotated order.
   */
  lemma {:induction false} EvaluateHonest(rows: map<AnswerKey, Answer>, oracle: Oracle, question: Question,
                                          nEvals: nat, style: OptionPrefixes, model: ModelName, count: nat, k: AnswerKey)
    requires count <= 4
    requires Honest(oracle)
    requires var w := EvaluateUpTo(rows, oracle, question, nEvals, style, model, count).0;
      k in w && !(k in rows && w[k] == rows[k])
    ensures var w := EvaluateUpTo(rows, oracle, question, nEvals, style, model, count).0;
      w[k].text in k.options && multiset(k.options) == multiset(question.options)
    ensures exists r :: 0 <= r < count && k.options == Shift(question.options, r)
  {
    var (prev, o) := EvaluateUpTo(rows, oracle, question, nEvals, style, model, count - 1);
    if o.Rejected? {
      EvaluateHonest(rows, oracle, question, nEvals, style, model, count - 1, k);
    } else {
      var r := count - 1;
      var q := Rotated(question, r);
      var c := Collect(oracle, q, style.prefixes, model, r, nEvals);
      if c.CollectFailed? {
        EvaluateHonest(rows, oracle, question, nEvals, style, model, count - 1, k);
      } else {
        CollectHonest(oracle, q, style.prefixes, model, r, nEvals);
        if WrittenKey(k, q, model, style, c.answers, |c.answers|) {
          WrittenSlot(prev, q, model, style, r, c.answers, |c.answers|, k.index);
          OptionSeriesIsRotations(question.options, r);
          assert k.options == Shift(question.options, r);
        } else {
          WrittenFrame(prev, q, model, style, r, c.answers, |c.answers|, k);
          EvaluateHonest(rows, oracle, question, nEvals, style, model, count - 1, k);
        }
      }
    }
  }

  /** Whether it resolves or rejects, a run leaves every row under its own unique key. */
  lemma {:induction false} EvaluateKeyed(rows: map<AnswerKey, Answer>, oracle: Oracle, question: Question,
                                         nEvals: nat, style: OptionPrefixes, model: ModelName, count: nat)
    requires count <= 4
    requires Keyed(rows)
    ensures Keyed(EvaluateUpTo(rows, oracle, question, nEvals, style, model, count).0)
  {
    if count > 0 {
      EvaluateKeyed(rows, oracle, question, nEvals, style, model, count - 1);
      var (prev, o) := EvaluateUpTo(rows, oracle, question, nEvals, style, model, count - 1);
      if o.Resolved? {
        var q := Rotated(question, count - 1);
        var c := Collect(oracle, q, style.prefixes, model, count - 1, nEvals);
        if c.Collected? {
          WrittenKeyed(prev, q, model, style, count - 1, c.answers, |c.answers|);
        }
      }
    }
  }

  /** Every trial of every rotation returns a non-empty text. */
  ghost predicate AllAnswered(oracle: Oracle, question: Question, nEvals: nat, style: OptionPrefixes, model: ModelName) {
    forall r, t :: 0 <= r < 4 && 0 <= t < nEvals ==>
      Trial(oracle, Rotated(question, r), style.prefixes, model, r, t).Done? &&
      Trial(oracle, Rotated(question, r), style.prefixes, model, r, t).text != ""
  }

  /** When every trial answers, each rotation's join succeeds with the trials' texts. */
  lemma AllAnsweredCollects(oracle: Oracle, question: Question, nEvals: nat, style: OptionPrefixes,
                            model: ModelName, r: nat)
    requires r < 4
    requires AllAnswered(oracle, question, nEvals, style, model)
    ensures var c := Collect(oracle, Rotated(question, r), style.prefixes, model, r, nEvals);
      && c.Collected? && |c.answers| == nEvals
      && forall t :: 0 <= t < nEvals ==>
           c.answers[t] == Trial(oracle, Rotated(question, r), style.prefixes, model, r, t).text && c.answers[t] != ""
  {
    CollectSlots(oracle, Rotated(question, r), style.prefixes, model, r, nEvals);
  }

  /**
   * From any table, a key present after rotations 0..count-1 was there before or carries
   * the options of one of those rotations: a run writes no row for any other options list.
   */
  lemma {:induction false} EvaluateKeys(rows: map<AnswerKey, Answer>, oracle: Oracle, question: Question,
                                        nEvals: nat, style: OptionPrefixes, model: ModelName, count: nat, k: AnswerKey)
    requires count <= 4
    ensures k in EvaluateUpTo(rows, oracle, question, nEvals, style, model, count).0 ==>
      k in rows || exists r :: 0 <= r < count && k.options == Rotated(question, r).options
  {
    if count > 0 {
      EvaluateKeys(rows, oracle, question, nEvals, style, model, count - 1, k);
      var (prev, o) := EvaluateUpTo(rows, oracle, question, nEvals, style, model, count - 1);
      var r := count - 1;
      var q := Rotated(question, r);
      var c := Collect(oracle, q, style.prefixes, model, r, nEvals);
      if o.Resolved? && c.Collected? && k in Written(prev, q, model, style, r, c.answers, |c.answers|) {
        WrittenKeysOnly(prev, q, model, style, r, c.answers, |c.answers|, k);
      }
    }
  }

  /** When every trial answers, the rotations 0..count-1 all resolve, whatever the table holds. */
  lemma {:induction false} AllAnsweredResolves(rows: map<AnswerKey, Answer>, oracle: Oracle, question: Question,
                                               nEvals: nat, style: OptionPrefixes, model: ModelName, count: nat)
    requires count <= 4
    requires AllAnswered(oracle, question, nEvals, style, model)
    ensures EvaluateUpTo(rows, oracle, question, nEvals, style, model, count).1 == Resolved
  {
    if count > 0 {
      AllAnsweredResolves(rows, oracle, question, nEvals, style, model, count - 1);
      AllAnsweredCollects(oracle, question, nEvals, style, model, count - 1);
    }
  }

  /**
   * On an empty table, when every trial answers and the four rotations are different
   * lists, the row of (rotation r, trial t) is the full record of that trial: its text and
   * rotation number r.
   */
  lemma {:induction false} AllAnsweredSlot(oracle: Oracle, question: Question, nEvals: nat, style: OptionPrefixes,
                                           model: ModelName, count: nat, r: nat, t: nat)
    requires r < count <= 4 && t < nEvals
    requires AllAnswered(oracle, question, nEvals, style, model)
    requires forall a, b :: 0 <= a < b < 4 ==> Rotated(question, a).options != Rotated(question, b).options
    ensures var w := EvaluateUpTo(map[], oracle, question, nEvals, style, model, count).0;
      var k := RowKey(Rotated(question, r), model, style, t);
      k in w && w[k] == NewRow(Rotated(question, r), model, style, r,
                               Trial(oracle, Rotated(question, r), style.prefixes, model, r, t).text, t)
  {
    var prev := EvaluateUpTo(map[], oracle, question, nEvals, style, model, count - 1).0;
    var last := count - 1;
    var q := Rotated(question, last);
    var k := RowKey(Rotated(question, r), model, style, t);
    EvaluateKeys(map[], oracle, question, nEvals, style, model, count - 1, k);
    AllAnsweredResolves(map[], oracle, question, nEvals, style, model, count - 1);
    AllAnsweredCollects(oracle, question, nEvals, style, model, last);
    var c := Collect(oracle, q, style.prefixes, model, last, nEvals);
    if r == last {
      assert k !in prev;
      WrittenSlot(prev, q, model, style, last, c.answers, |c.answers|, t);
    } else {
      AllAnsweredSlot(oracle, question, nEvals, style, model, count - 1, r, t);
      WrittenFrame(prev, q, model, style, last, c.answers, |c.answers|, k);
    }
  }

  /**
   * The end-to-end run on an empty table: when every trial answers and the rotations are
   * four different lists, the run resolves and the row under (question, model, style,
   * shift by r, t) holds trial t of rotation r with `optionIndex` r, for all 4 x nEvals slots.
   */
  lemma EvaluateAllAnswered(oracle: Oracle, question: Question, nEvals: nat, style: OptionPrefixes,
                            model: ModelName)
    requires AllAnswered(oracle, question, nEvals, style, model)
    requires forall a, b :: 0 <= a < b < 4 ==> Shift(question.options, a) != Shift(question.options, b)
    ensures Evaluate(map[], oracle, question, nEvals, style, model).1 == Resolved
    ensures forall r, t :: 0 <= r < 4 && 0 <= t < nEvals ==>
      var w := Evaluate(map[], oracle, question, nEvals, style, model).0;
      var k := AnswerKey(question.name, model, style.name, Shift(question.options, r), t);
      && k in w
      && w[k] == Answer(question.name, model, style.name, Shift(question.options, r), r,
                        Trial(oracle, Rotated(question, r), style.prefixes, model, r, t).text, t)
  {
    forall r | 0 <= r < 4 ensures Rotated(question, r).options == Shift(question.options, r) {
      OptionSeriesIsRotations(question.options, r);
    }
    AllAnsweredResolves(map[], oracle, question, nEvals, style, model, 4);
    forall r, t | 0 <= r < 4 && 0 <= t < nEvals
      ensures var w := Evaluate(map[], oracle, question, nEvals, style, model).0;
        var k := AnswerKey(question.name, model, style.name, Shift(question.options, r), t);
        && k in w
        && w[k] == Answer(question.name, model, style.name, Shift(question.options, r), r,
                          Trial(oracle, Rotated(question, r), style.prefixes, model, r, t).text, t)
    {
      AllAnsweredSlot(oracle, question, nEvals, style, model, 4, r, t);
    }
  }
}
