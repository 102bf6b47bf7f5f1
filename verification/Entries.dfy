/** Log records and their structured fields: `src/entry.rs`. */
module Entries {
  import opened Basics
  import opened Levels
  import opened Text
  import opened Timestamps

  /** A floating-point value, as the decimal expansion it prints with. */
  datatype Float = Finite(negative: bool, whole: nat, fraction: Digits) | NonFinite

  type Digits = s: string | AllDigits(s) witness ""

  datatype FieldValue = Str(s: string) | Int(i: int) | Number(f: Float) | Bool(b: bool) | Null

  datatype Field = Field(key: string, value: FieldValue)

  datatype LogEntry = LogEntry(
    timestamp: Timestamp, level: Level, message: string, target: string, file: string, line: nat, fields: seq<Field>)

  predicate HasKey(fields: seq<Field>, key: string) {
    exists i :: 0 <= i < |fields| && fields[i].key == key
  }

  /** The value of the first field with this key. */
  function FirstValue(fields: seq<Field>, key: string): Option<FieldValue> {
    if fields == [] then None
    else if fields[0].key == key then Some(fields[0].value)
    else FirstValue(fields[1..], key)
  }

  lemma {:induction false} FirstValueConcat(a: seq<Field>, b: seq<Field>, key: string)
    ensures FirstValue(a + b, key) == if FirstValue(a, key).Some? then FirstValue(a, key) else FirstValue(b, key)
    ensures FirstValue(a, key).Some? <==> HasKey(a, key)
  {
    if a == [] {
      assert a + b == b;
    } else {
      assert (a + b)[1..] == a[1..] + b;
      FirstValueConcat(a[1..], b, key);
      if HasKey(a, key) && a[0].key != key {
        var i :| 0 <= i < |a| && a[i].key == key;
        assert a[1..][i - 1] == a[i];
      }
    }
  }

  // ---------- merging the context into a record ----------

  /** `merge_context` on the fields. */
  function MergeInto(fields: seq<Field>, context: seq<Field>): seq<Field>
    decreases context
  {
    if context == [] then fields
    else MergeInto(if HasKey(fields, context[0].key) then fields else fields + [context[0]], context[1..])
  }

  lemma {:induction false} MergeIntoSnoc(fields: seq<Field>, context: seq<Field>, f: Field)
    ensures var merged := MergeInto(fields, context);
            MergeInto(fields, context + [f]) == if HasKey(merged, f.key) then merged else merged + [f]
    decreases context
  {
    if context == [] {
      assert [f][1..] == [];
    } else {
      assert (context + [f])[1..] == context[1..] + [f];
      MergeIntoSnoc(if HasKey(fields, context[0].key) then fields else fields + [context[0]], context[1..], f);
    }
  }

  /** The context fields whose key the record does not use, each key where the context first has it, in order. */
  function Unused(fields: seq<Field>, context: seq<Field>): seq<Field> {
    if context == [] then []
    else
      var init, last := context[..|context| - 1], context[|context| - 1];
      Unused(fields, init) + if HasKey(fields, last.key) || HasKey(init, last.key) then [] else [last]
  }

  predicate UniqueKeys(fields: seq<Field>) {
    forall i, j :: 0 <= i < j < |fields| ==> fields[i].key != fields[j].key
  }

  lemma HasKeyConcat(a: seq<Field>, b: seq<Field>, key: string)
    ensures HasKey(a + b, key) <==> HasKey(a, key) || HasKey(b, key)
  {
    if HasKey(a, key) {
      var i :| 0 <= i < |a| && a[i].key == key;
      assert (a + b)[i].key == key;
    } else if HasKey(b, key) {
      var i :| 0 <= i < |b| && b[i].key == key;
      assert (a + b)[|a| + i].key == key;
    }
  }

  lemma HasKeySnoc(fields: seq<Field>, f: Field, key: string)
    ensures HasKey(fields + [f], key) <==> HasKey(fields, key) || f.key == key
  {
    HasKeyConcat(fields, [f], key);
    assert HasKey([f], key) <==> [f][0].key == key;
  }

  /** A key the record does not use is among the unused fields if and only if the context has it. */
  lemma {:induction false} UnusedKeys(fields: seq<Field>, context: seq<Field>, key: string)
    requires !HasKey(fields, key)
    ensures HasKey(Unused(fields, context), key) <==> HasKey(context, key)
  {
    if context != [] {
      var init, last := context[..|context| - 1], context[|context| - 1];
      assert context == init + [last];
      UnusedKeys(fields, init, key);
      HasKeySnoc(init, last, key);
      HasKeySnoc(Unused(fields, init), last, key);
      assert Unused(fields, init) + [] == Unused(fields, init);
    }
  }

  /** The record's own fields stay as they are, in front; what follows is exactly, in order, the first
  field of every key that the context has and the record does not use. */
  lemma {:induction false} MergeAddsUnused(fields: seq<Field>, context: seq<Field>)
    ensures MergeInto(fields, context) == fields + Unused(fields, context)
  {
    if context != [] {
      var init, last := context[..|context| - 1], context[|context| - 1];
      var u := Unused(fields, init);
      assert context == init + [last];
      MergeAddsUnused(fields, init);
      MergeIntoSnoc(fields, init, last);
      HasKeyConcat(fields, u, last.key);
      if !HasKey(fields, last.key) {
        UnusedKeys(fields, init, last.key);
      }
      ConcatAssociates(fields, u, [last]);
    }
  }

  /** Explicit fields win over context fields of the same key; other keys get the context's value. */
  lemma {:induction false} ExplicitWins(fields: seq<Field>, context: seq<Field>, key: string)
    ensures FirstValue(MergeInto(fields, context), key)
         == if HasKey(fields, key) then FirstValue(fields, key) else FirstValue(context, key)
    decreases context
  {
    FirstValueConcat(fields, [], key);
    if context != [] {
      var more := fields + [context[0]];
      FirstValueConcat(fields, [context[0]], key);
      FirstValueConcat(more, [], key);
      assert [context[0]][1..] == [];
      ExplicitWins(if HasKey(fields, context[0].key) then fields else more, context[1..], key);
    }
  }

  /** `LogEntry::merge_context`. */
  method MergeContext(entry: LogEntry, context: seq<Field>) returns (merged: LogEntry)
    ensures merged == entry.(fields := MergeInto(entry.fields, context))
    ensures merged.fields == entry.fields + Unused(entry.fields, context)
  {
    merged := entry;
    var k := 0;
    while k < |context|
      invariant 0 <= k <= |context|
      invariant merged == entry.(fields := MergeInto(entry.fields, context[..k]))
    {
      assert context[..k + 1] == context[..k] + [context[k]];
      MergeIntoSnoc(entry.fields, context[..k], context[k]);
      if !HasKey(merged.fields, context[k].key) {
        merged := merged.(fields := merged.fields + [context[k]]);
      }
      k := k + 1;
    }
    assert context[..k] == context;
    MergeAddsUnused(entry.fields, context);
  }
}
