/**
 * The `Answer` table that the evaluation pipeline writes and the analysis page reads.
 * The database itself is abstract: a table is a map from the composite unique key
 * (questionName, modelName, optionType, options, index) to the stored record, held in a
 * field of a class, and the only write is the insert-or-overwrite `Upsert`.
 */
module AnswerStore {

  /** The three model back-ends a question can be put to. */
  datatype ModelName = Llama | Gpt4Mini | Gpt4o

  /** The composite unique key of an answer row. */
  datatype AnswerKey = AnswerKey(
    questionName: string,
    modelName: ModelName,
    optionType: string,
    options: seq<string>,
    index: nat)

  /** An answer row: which question variant was shown, which trial it was and what came back. */
  datatype Answer = Answer(
    questionName: string,
    modelName: ModelName,
    optionType: string,
    options: seq<string>,
    optionIndex: nat,
    text: string,
    index: nat)

  /** The unique key under which a row is stored. */
  function KeyOf(a: Answer): AnswerKey {
    AnswerKey(a.questionName, a.modelName, a.optionType, a.options, a.index)
  }

  /**
   * The table after one upsert: a row already stored under `key` gets only its `text`
   * overwritten; otherwise `create` is stored under `key`.
   */
  function Upserted(rows: map<AnswerKey, Answer>, key: AnswerKey, create: Answer, text: string): map<AnswerKey, Answer> {
    if key in rows then rows[key := rows[key].(text := text)] else rows[key := create]
  }

  /**
   * Upserting the same key twice leaves one row under it, holding the second text; every
   * other field is that of the first write (or of the row that was already there).
   */
  lemma UpsertTwice(rows: map<AnswerKey, Answer>, key: AnswerKey, create1: Answer, text1: string,
                    create2: Answer, text2: string)
    ensures var r := Upserted(Upserted(rows, key, create1, text1), key, create2, text2);
      && r.Keys == rows.Keys + {key}
      && r[key] == (if key in rows then rows[key] else create1).(text := text2)
      && forall k :: k in rows && k != key ==> r[k] == rows[k]
  {
  }

  /**
   * An upsert on a key that is already present changes nothing but that row's text;
   * an upsert on a new key stores the full record; no other key is touched.
   */
  lemma UpsertEffect(rows: map<AnswerKey, Answer>, key: AnswerKey, create: Answer, text: string)
    ensures var r := Upserted(rows, key, create, text);
      && r.Keys == rows.Keys + {key}
      && (key in rows ==> r[key] == rows[key].(text := text))
      && (key !in rows ==> r[key] == create)
      && forall k :: k in rows && k != key ==> r[k] == rows[k]
  {
  }

  /** Every row is stored under its own unique key. */
  predicate Keyed(rows: map<AnswerKey, Answer>) {
    forall k :: k in rows ==> KeyOf(rows[k]) == k
  }

  /**
   * An upsert whose full record carries the key it is stored under keeps every row under its
   * own key: overwriting `text` never changes a key field.
   */
  lemma UpsertKeepsKeyed(rows: map<AnswerKey, Answer>, key: AnswerKey, create: Answer, text: string)
    requires Keyed(rows) && KeyOf(create) == key
    ensures Keyed(Upserted(rows, key, create, text))
  {
  }

  /** The `Answer` table: the one piece of state shared by every write. */
  class AnswerTable {
    var rows: map<AnswerKey, Answer>

    /** A table with no rows. */
    constructor ()
      ensures rows == map[]
    {
      rows := map[];
    }

    /** Insert `create` under `key`, or overwrite only the text of the row already there. */
    method Upsert(key: AnswerKey, create: Answer, text: string)
      modifies this
      ensures rows == Upserted(old(rows), key, create, text)
      ensures key in rows && rows[key].text == (if key in old(rows) then text else create.text)
      ensures forall k :: k in old(rows) && k != key ==> k in rows && rows[k] == old(rows)[k]
      ensures Keyed(old(rows)) && KeyOf(create) == key ==> Keyed(rows)
    {
      if key in rows {
        rows := rows[key := rows[key].(text := text)];
      } else {
        rows := rows[key := create];
      }
    }
  }
}
