/** The thread-local scopes of `src/context.rs`. */
module Context {
  import opened Basics
  import opened Entries

  datatype Frame = Frame(id: nat, fields: seq<Field>)

  // ---------- merging the frames ----------

  /** A field replaces the one with its key, in place, or goes to the end. */
  function Upsert(merged: seq<Field>, f: Field): seq<Field> {
    if merged == [] then [f]
    else if merged[0].key == f.key then [f] + merged[1..]
    else [merged[0]] + Upsert(merged[1..], f)
  }

  /** `current_context` over all fields, outermost frame first. */
  function Merged(fields: seq<Field>): seq<Field> {
    if fields == [] then [] else Upsert(Merged(fields[..|fields| - 1]), fields[|fields| - 1])
  }

  function AllFields(frames: seq<Frame>): seq<Field> {
    if frames == [] then [] else AllFields(frames[..|frames| - 1]) + frames[|frames| - 1].fields
  }

  /** The keys in the order of their first occurrence. */
  function FirstKeys(fields: seq<Field>): seq<string> {
    if fields == [] then []
    else
      var keys, key := FirstKeys(fields[..|fields| - 1]), fields[|fields| - 1].key;
      if key in keys then keys else keys + [key]
  }

  /** The value of the last field with this key: that of the innermost scope. */
  function LastValue(fields: seq<Field>, key: string): Option<FieldValue> {
    if fields == [] then None
    else if fields[|fields| - 1].key == key then Some(fields[|fields| - 1].value)
    else LastValue(fields[..|fields| - 1], key)
  }

  function Keys(fields: seq<Field>): seq<string> {
    seq(|fields|, i requires 0 <= i < |fields| => fields[i].key)
  }

  lemma {:induction false} UpsertAt(merged: seq<Field>, f: Field, i: nat)
    requires i <= |merged|
    requires forall j :: 0 <= j < i ==> merged[j].key != f.key
    requires i < |merged| ==> merged[i].key == f.key
    ensures Upsert(merged, f) == if i < |merged| then merged[i := f] else merged + [f]
  {
    if merged != [] && i > 0 {
      UpsertAt(merged[1..], f, i - 1);
    }
  }

  /** `merged` lists the keys of `fields` once, as they first occur, each with its last value. */
  predicate MergeOf(merged: seq<Field>, fields: seq<Field>) {
    && Keys(merged) == FirstKeys(fields)
    && UniqueKeys(merged)
    && (forall i :: 0 <= i < |merged| ==> LastValue(fields, merged[i].key) == Some(merged[i].value))
  }

  lemma {:induction false} AbsentHasNoValue(fields: seq<Field>, key: string)
    ensures key in FirstKeys(fields) <==> LastValue(fields, key).Some?
  {
    if fields != [] {
      AbsentHasNoValue(fields[..|fields| - 1], key);
    }
  }

  function IndexOfKey(merged: seq<Field>, key: string): (i: nat)
    ensures i <= |merged|
    ensures forall j :: 0 <= j < i ==> merged[j].key != key
    ensures i < |merged| ==> merged[i].key == key
  {
    if merged == [] || merged[0].key == key then 0 else 1 + IndexOfKey(merged[1..], key)
  }

  /** Replacing a value in place. */
  lemma MergeOfUpdate(merged: seq<Field>, before: seq<Field>, f: Field, i: nat)
    requires MergeOf(merged, before)
    requires i < |merged| && merged[i].key == f.key
    ensures MergeOf(merged[i := f], before + [f])
  {
    var fields, updated := before + [f], merged[i := f];
    assert fields[..|fields| - 1] == before;
    assert Keys(merged)[i] == f.key;
    assert Keys(updated) == Keys(merged);
    forall j | 0 <= j < |updated|
      ensures LastValue(fields, updated[j].key) == Some(updated[j].value)
    {
      assert j != i ==> merged[j].key != f.key;
    }
  }

  /** Appending a field with a new key. */
  lemma MergeOfAppend(merged: seq<Field>, before: seq<Field>, f: Field)
    requires MergeOf(merged, before)
    requires forall j :: 0 <= j < |merged| ==> merged[j].key != f.key
    ensures MergeOf(merged + [f], before + [f])
  {
    var fields := before + [f];
    assert fields[..|fields| - 1] == before;
    assert f.key !in Keys(merged);
    assert Keys(merged + [f]) == Keys(merged) + [f.key];
  }

  /** The merged context has unique keys in first-occurrence order, with the innermost values. */
  lemma {:induction false} MergedMeaning(fields: seq<Field>)
    ensures MergeOf(Merged(fields), fields)
  {
    if fields != [] {
      var before, f := fields[..|fields| - 1], fields[|fields| - 1];
      MergedMeaning(before);
      var merged := Merged(before);
      var i := IndexOfKey(merged, f.key);
      UpsertAt(merged, f, i);
      assert before + [f] == fields;
      if i < |merged| {
        MergeOfUpdate(merged, before, f, i);
      } else {
        MergeOfAppend(merged, before, f);
      }
    }
  }

  lemma {:induction false} UniqueIsMerged(fields: seq<Field>)
    requires UniqueKeys(fields)
    ensures Merged(fields) == fields
  {
    if fields != [] {
      var before, f := fields[..|fields| - 1], fields[|fields| - 1];
      UniqueIsMerged(before);
      UpsertAt(before, f, |before|);
      assert before + [f] == fields;
    }
  }

  /** A captured context entered on an empty stack is the same context again. */
  lemma CaptureThenEnter(frames: seq<Frame>, id: nat)
    ensures var snapshot := Merged(AllFields(frames));
            Merged(AllFields([Frame(id, snapshot)])) == snapshot
  {
    var snapshot := Merged(AllFields(frames));
    MergedMeaning(AllFields(frames));
    UniqueIsMerged(snapshot);
    assert AllFields([Frame(id, snapshot)]) == snapshot;
  }

  lemma {:induction false} FirstOfUnique(fields: seq<Field>, i: nat)
    requires UniqueKeys(fields) && i < |fields|
    ensures FirstValue(fields, fields[i].key) == Some(fields[i].value)
  {
    if i > 0 {
      assert fields[0].key != fields[i].key;
      FirstOfUnique(fields[1..], i - 1);
    }
  }

  /** What a record carries for a key: its own value if it has one, else that of the innermost live scope
  that sets the key. */
  lemma RecordSeesInnermost(explicit: seq<Field>, frames: seq<Frame>, key: string)
    ensures FirstValue(MergeInto(explicit, Merged(AllFields(frames))), key)
         == if HasKey(explicit, key) then FirstValue(explicit, key) else LastValue(AllFields(frames), key)
  {
    var all := AllFields(frames);
    var merged := Merged(all);
    MergedMeaning(all);
    AbsentHasNoValue(all, key);
    ExplicitWins(explicit, merged, key);
    FirstValueConcat(merged, [], key);
    assert key in Keys(merged) <==> HasKey(merged, key) by {
      assert forall j :: 0 <= j < |merged| ==> Keys(merged)[j] == merged[j].key;
    }
    if key in Keys(merged) {
      FirstOfUnique(merged, IndexOfKey(merged, key));
    }
  }

  // ---------- scopes ----------

  /** What happens to one thread's stack: a scope is pushed, the guard of a frame is dropped, or another
  thread takes the next frame number. */
  datatype Event = Push(fields: seq<Field>) | DropGuard(id: nat) | Elsewhere

  datatype Stack = Stack(frames: seq<Frame>, nextId: nat)

  /** `Vec::position` and `Vec::remove`. */
  function RemoveFrame(frames: seq<Frame>, id: nat): seq<Frame> {
    if frames == [] then []
    else if frames[0].id == id then frames[1..]
    else [frames[0]] + RemoveFrame(frames[1..], id)
  }

  function Step(s: Stack, e: Event): Stack {
    match e
    case Push(fields) => Stack(s.frames + [Frame(s.nextId, fields)], s.nextId + 1)
    case DropGuard(id) => s.(frames := RemoveFrame(s.frames, id))
    case Elsewhere => s.(nextId := s.nextId + 1)
  }

  function RunEvents(events: seq<Event>): Stack {
    if events == [] then Stack([], 1)
    else Step(RunEvents(events[..|events| - 1]), events[|events| - 1])
  }

  /** The number of the frame pushed by event `i`: one more than the numbers taken before it. */
  function FrameNumber(events: seq<Event>, i: nat): nat
    requires i <= |events|
  {
    if i == 0 then 1 else FrameNumber(events, i - 1) + if events[i - 1].DropGuard? then 0 else 1
  }

  /** The frame pushed by event `i` has not been dropped since. */
  predicate Live(events: seq<Event>, i: nat)
    requires i < |events|
  {
    events[i].Push? && forall j :: i < j < |events| ==> events[j] != DropGuard(FrameNumber(events, i))
  }

  /** The first `n` pushes that are still live, in order. */
  function LiveFrames(events: seq<Event>, n: nat): seq<Frame>
    requires n <= |events|
  {
    if n == 0 then []
    else
      LiveFrames(events, n - 1)
      + if Live(events, n - 1) then [Frame(FrameNumber(events, n - 1), events[n - 1].fields)] else []
  }

  lemma {:induction false} NumberPrefix(events: seq<Event>, last: Event, i: nat)
    requires i <= |events|
    ensures FrameNumber(events + [last], i) == FrameNumber(events, i)
  {
    if i > 0 {
      NumberPrefix(events, last, i - 1);
    }
  }

  lemma {:induction false} NumbersGrow(events: seq<Event>, i: nat, j: nat)
    requires i <= j <= |events|
    ensures FrameNumber(events, i) <= FrameNumber(events, j)
    ensures i < j && !events[i].DropGuard? ==> FrameNumber(events, i) < FrameNumber(events, j)
    decreases j
  {
    if i < j {
      NumbersGrow(events, i, j - 1);
    }
  }

  lemma {:induction false} LiveIdsBelow(events: seq<Event>, n: nat, k: nat)
    requires n <= |events| && k < |LiveFrames(events, n)|
    ensures LiveFrames(events, n)[k].id < FrameNumber(events, n)
  {
    if n > 0 {
      NumbersGrow(events, n - 1, n);
      if k < |LiveFrames(events, n - 1)| {
        LiveIdsBelow(events, n - 1, k);
      }
    }
  }

  lemma {:induction false} RemoveFromSnoc(frames: seq<Frame>, f: Frame, id: nat)
    requires forall k :: 0 <= k < |frames| ==> frames[k].id < f.id
    ensures RemoveFrame(frames + [f], id) == RemoveFrame(frames, id) + if f.id == id then [] else [f]
    ensures f.id == id ==> RemoveFrame(frames, id) == frames
  {
    if frames == [] {
      assert frames + [f] == [f];
    } else {
      assert (frames + [f])[1..] == frames[1..] + [f];
      RemoveFromSnoc(frames[1..], f, id);
      ConcatAssociates([frames[0]], RemoveFrame(frames[1..], id), if f.id == id then [] else [f]);
    }
  }

  lemma LivePrefix(events: seq<Event>, last: Event, i: nat)
    requires i < |events|
    ensures Live(events + [last], i) <==> Live(events, i) && last != DropGuard(FrameNumber(events, i))
  {
    var all := events + [last];
    NumberPrefix(events, last, i);
    assert all[|events|] == last;
    assert forall j :: 0 <= j < |events| ==> all[j] == events[j];
  }

  lemma NextLive(events: seq<Event>, i: nat)
    requires i < |events|
    ensures LiveFrames(events, i + 1)
         == if Live(events, i) then LiveFrames(events, i) + [Frame(FrameNumber(events, i), events[i].fields)]
            else LiveFrames(events, i)
  {
    assert LiveFrames(events, i) + [] == LiveFrames(events, i);
  }

  /** The frame pushed last is dropped, or stays last. */
  lemma RemoveFromLive(events: seq<Event>, i: nat, id: nat)
    requires i < |events| && Live(events, i)
    ensures RemoveFrame(LiveFrames(events, i + 1), id)
         == if FrameNumber(events, i) == id then LiveFrames(events, i)
            else RemoveFrame(LiveFrames(events, i), id) + [Frame(FrameNumber(events, i), events[i].fields)]
  {
    var older := LiveFrames(events, i);
    forall k | 0 <= k < |older|
      ensures older[k].id < FrameNumber(events, i)
    {
      LiveIdsBelow(events, i, k);
    }
    RemoveFromSnoc(older, Frame(FrameNumber(events, i), events[i].fields), id);
  }

  /** What one more event should make of the live frames. */
  function Afterwards(frames: seq<Frame>, last: Event): seq<Frame> {
    if last.DropGuard? then RemoveFrame(frames, last.id) else frames
  }

  lemma LiveAfterFrame(events: seq<Event>, last: Event, i: nat)
    requires i < |events| && Live(events, i)
    requires LiveFrames(events + [last], i) == Afterwards(LiveFrames(events, i), last)
    ensures LiveFrames(events + [last], i + 1) == Afterwards(LiveFrames(events, i + 1), last)
  {
    LiveAfterStep(events, last, i);
    if last.DropGuard? {
      RemoveFromLive(events, i, last.id);
      if FrameNumber(events, i) == last.id {
        DropsNothingOlder(events, i);
      }
    }
  }

  lemma LiveAfterOther(events: seq<Event>, last: Event, i: nat)
    requires i < |events| && !Live(events, i)
    requires LiveFrames(events + [last], i) == Afterwards(LiveFrames(events, i), last)
    ensures LiveFrames(events + [last], i + 1) == Afterwards(LiveFrames(events, i + 1), last)
  {
    LiveAfterStep(events, last, i);
  }

  /** One more event changes the live frames as the code changes the stack. */
  lemma {:induction false} LiveAfter(events: seq<Event>, last: Event, n: nat)
    requires n <= |events|
    ensures LiveFrames(events + [last], n) == Afterwards(LiveFrames(events, n), last)
  {
    if n > 0 {
      LiveAfter(events, last, n - 1);
      if Live(events, n - 1) {
        LiveAfterFrame(events, last, n - 1);
      } else {
        LiveAfterOther(events, last, n - 1);
      }
    }
  }

  lemma DropsNothingOlder(events: seq<Event>, i: nat)
    requires i < |events|
    ensures RemoveFrame(LiveFrames(events, i), FrameNumber(events, i)) == LiveFrames(events, i)
  {
    var older := LiveFrames(events, i);
    forall k | 0 <= k < |older|
      ensures older[k].id < FrameNumber(events, i)
    {
      LiveIdsBelow(events, i, k);
    }
    RemoveFromSnoc(older, Frame(FrameNumber(events, i), []), FrameNumber(events, i));
  }

  lemma LiveAfterStep(events: seq<Event>, last: Event, i: nat)
    requires i < |events|
    ensures var before, after := LiveFrames(events + [last], i), LiveFrames(events + [last], i + 1);
            after == if Live(events, i) && last != DropGuard(FrameNumber(events, i))
                     then before + [Frame(FrameNumber(events, i), events[i].fields)] else before
    ensures LiveFrames(events, i + 1)
         == if Live(events, i) then LiveFrames(events, i) + [Frame(FrameNumber(events, i), events[i].fields)]
            else LiveFrames(events, i)
  {
    var all := events + [last];
    assert all[i] == events[i];
    NumberPrefix(events, last, i);
    LivePrefix(events, last, i);
    NextLive(all, i);
    NextLive(events, i);
  }

  /** After any interleaving of pushes and drops, in any order and with other threads taking frame
  numbers in between, the stack holds exactly the frames still live, in the order they were pushed. */
  lemma {:induction false} StackIsLivePushes(events: seq<Event>)
    ensures RunEvents(events).frames == LiveFrames(events, |events|)
    ensures RunEvents(events).nextId == FrameNumber(events, |events|)
  {
    if events != [] {
      var before, last := events[..|events| - 1], events[|events| - 1];
      assert events == before + [last];
      StackIsLivePushes(before);
      LiveAfter(before, last, |before|);
      NumberPrefix(before, last, |before|);
    }
  }

  // ---------- the code, in place ----------

  /** The process-wide source of frame numbers. */
  class FrameIds {
    var next: nat

    constructor ()
      ensures next == 1
    {
      next := 1;
    }
  }

  /** One thread's stack of frames. */
  class ContextStack {
    const ids: FrameIds
    var frames: seq<Frame>

    function Contents(): Stack
      reads this, ids
    {
      Stack(frames, ids.next)
    }

    constructor (ids: FrameIds)
      ensures this.ids == ids && frames == []
    {
      this.ids := ids;
      frames := [];
    }

    /** `push_context`; the number returned is the guard's. */
    method PushContext(fields: seq<Field>) returns (id: nat)
      modifies this, ids
      ensures id == old(ids.next)
      ensures Contents() == Step(old(Contents()), Push(fields))
    {
      id := ids.next;
      ids.next := ids.next + 1;
      frames := frames + [Frame(id, fields)];
    }

    /** Dropping a `ContextGuard`. */
    method DropContext(id: nat)
      modifies this
      ensures Contents() == Step(old(Contents()), DropGuard(id))
    {
      var pos := 0;
      while pos < |frames| && frames[pos].id != id
        invariant 0 <= pos <= |frames|
        invariant forall k :: 0 <= k < pos ==> frames[k].id != id
      {
        pos := pos + 1;
      }
      RemoveAt(frames, id, pos);
      if pos < |frames| {
        frames := frames[..pos] + frames[pos + 1..];
      }
    }

    static lemma WithoutAt(frames: seq<Frame>, pos: nat)
      requires 0 < pos < |frames|
      ensures frames[..pos] + frames[pos + 1..] == [frames[0]] + (frames[1..][..pos - 1] + frames[1..][pos..])
    {
    }

    static lemma {:induction false} RemoveAt(frames: seq<Frame>, id: nat, pos: nat)
      requires pos <= |frames|
      requires forall k :: 0 <= k < pos ==> frames[k].id != id
      requires pos < |frames| ==> frames[pos].id == id
      ensures RemoveFrame(frames, id) == if pos < |frames| then frames[..pos] + frames[pos + 1..] else frames
    {
      if pos > 0 {
        RemoveAt(frames[1..], id, pos - 1);
        if pos < |frames| {
          WithoutAt(frames, pos);
        }
      }
    }

    /** The inner loop's body: `existing` is overwritten, or the field is pushed. */
    static method UpsertField(merged: seq<Field>, field: Field) returns (updated: seq<Field>)
      ensures updated == Upsert(merged, field)
    {
      var k := 0;
      while k < |merged| && merged[k].key != field.key
        invariant 0 <= k <= |merged|
        invariant forall l :: 0 <= l < k ==> merged[l].key != field.key
      {
        k := k + 1;
      }
      UpsertAt(merged, field, k);
      updated := if k < |merged| then merged[k := field] else merged + [field];
    }

    static lemma MergedSnoc(fields: seq<Field>, f: Field)
      ensures Merged(fields + [f]) == Upsert(Merged(fields), f)
    {
      assert (fields + [f])[..|fields|] == fields;
    }

    static lemma MergedNext(outer: seq<Field>, fields: seq<Field>, j: nat)
      requires j < |fields|
      ensures Merged(outer + fields[..j + 1]) == Upsert(Merged(outer + fields[..j]), fields[j])
    {
      MergedSnoc(outer + fields[..j], fields[j]);
      assert outer + fields[..j + 1] == outer + fields[..j] + [fields[j]];
    }

    static lemma AllFieldsSnoc(frames: seq<Frame>, i: nat)
      requires i < |frames|
      ensures AllFields(frames[..i + 1]) == AllFields(frames[..i]) + frames[i].fields
    {
      assert frames[..i + 1][..i] == frames[..i];
    }

    /** The loop over the fields of one frame. */
    static method MergeFrame(merged: seq<Field>, ghost outer: seq<Field>, fields: seq<Field>)
      returns (updated: seq<Field>)
      requires merged == Merged(outer)
      ensures updated == Merged(outer + fields)
    {
      updated := merged;
      assert outer + fields[..0] == outer;
      var j := 0;
      while j < |fields|
        invariant 0 <= j <= |fields|
        invariant updated == Merged(outer + fields[..j])
      {
        MergedNext(outer, fields, j);
        updated := UpsertField(updated, fields[j]);
        j := j + 1;
      }
      assert fields[..j] == fields;
    }

    /** `current_context`; `capture_context` keeps its result. */
    method CurrentContext() returns (merged: seq<Field>)
      ensures merged == Merged(AllFields(frames))
      ensures UniqueKeys(merged)
    {
      merged := [];
      var i := 0;
      while i < |frames|
        invariant 0 <= i <= |frames|
        invariant merged == Merged(AllFields(frames[..i]))
      {
        AllFieldsSnoc(frames, i);
        merged := MergeFrame(merged, AllFields(frames[..i]), frames[i].fields);
        i := i + 1;
      }
      assert frames[..i] == frames;
      MergedMeaning(AllFields(frames));
    }

    /** `ContextSnapshot::enter`. */
    method Enter(snapshot: seq<Field>) returns (id: nat)
      modifies this, ids
      ensures id == old(ids.next)
      ensures Contents() == Step(old(Contents()), Push(snapshot))
      ensures old(frames) == [] && UniqueKeys(snapshot) ==> Merged(AllFields(frames)) == snapshot
    {
      id := PushContext(snapshot);
      if old(frames) == [] && UniqueKeys(snapshot) {
        UniqueIsMerged(snapshot);
        assert frames[..0] == [];
        assert AllFields(frames) == snapshot;
      }
    }
  }
}
