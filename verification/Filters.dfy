/** The per-target level filter of `src/filter.rs`. */
module Filters {
  import opened Basics
  import opened Levels
  import opened Strings
  import opened Utf8

  /** An empty target is the global default. */
  datatype Directive = Directive(target: string, level: Level)

  predicate HasTarget(ds: seq<Directive>, target: string) {
    exists i :: 0 <= i < |ds| && ds[i].target == target
  }

  /** What `parse` guarantees of every filter: a target has one directive. */
  predicate UniqueTargets(ds: seq<Directive>) {
    forall i, j :: 0 <= i < j < |ds| ==> ds[i].target != ds[j].target
  }

  // ---------- parsing ----------

  /** The directive of one comma-separated item; malformed items have none. */
  function ParseItem(piece: string): Option<Directive> {
    var raw := Trim(piece);
    var parts := Split(raw, '=');
    if raw == "" then None
    else if |parts| == 1 then
      match Levels.Parse(parts[0])
      case Some(level) => Some(Directive("", level))
      case None => Some(Directive(parts[0], Trace))
    else if |parts| == 2 then
      var name := Trim(parts[1]);
      if name == "" then
        if parts[0] == "" then None else Some(Directive(parts[0], Trace))
      else
        match Levels.Parse(name)
        case Some(level) => Some(Directive(parts[0], level))
        case None => None
    else None
  }

  /** A later directive for the same target replaces the level of the earlier one, in its place. */
  function Upsert(ds: seq<Directive>, d: Directive): seq<Directive> {
    if ds == [] then [d]
    else if ds[0].target == d.target then [Directive(d.target, d.level)] + ds[1..]
    else [ds[0]] + Upsert(ds[1..], d)
  }

  function UpsertItem(ds: seq<Directive>, piece: string): seq<Directive> {
    var item := ParseItem(piece);
    if item.Some? then Upsert(ds, item.value) else ds
  }

  function UpsertItems(ds: seq<Directive>, pieces: seq<string>): seq<Directive>
    decreases pieces
  {
    if pieces == [] then ds else UpsertItems(UpsertItem(ds, pieces[0]), pieces[1..])
  }

  /** The directive list of a spec: everything from the first `/` on is ignored. */
  function Items(spec: string): seq<string> {
    Split(Split(spec, '/')[0], ',')
  }

  function ParseSpec(spec: string): seq<Directive> {
    UpsertItems([], Items(spec))
  }

  /** The index of the directive for `target`, or the length of the list. */
  method Position(ds: seq<Directive>, target: string) returns (i: nat)
    ensures i <= |ds|
    ensures forall j :: 0 <= j < i ==> ds[j].target != target
    ensures i < |ds| ==> ds[i].target == target
  {
    i := 0;
    while i < |ds| && ds[i].target != target
      invariant 0 <= i <= |ds|
      invariant forall j :: 0 <= j < i ==> ds[j].target != target
    {
      i := i + 1;
    }
  }

  lemma {:induction false} UpsertAt(ds: seq<Directive>, d: Directive, i: nat)
    requires i <= |ds|
    requires forall j :: 0 <= j < i ==> ds[j].target != d.target
    requires i < |ds| ==> ds[i].target == d.target
    ensures Upsert(ds, d) == if i < |ds| then ds[i := d] else ds + [d]
  {
    if ds != [] && i > 0 {
      UpsertAt(ds[1..], d, i - 1);
    }
  }

  lemma {:induction false} UpsertItemsConcat(ds: seq<Directive>, p: seq<string>, q: seq<string>)
    ensures UpsertItems(ds, p + q) == UpsertItems(UpsertItems(ds, p), q)
    decreases p
  {
    if p == [] {
      assert p + q == q;
    } else {
      assert (p + q)[1..] == p[1..] + q;
      UpsertItemsConcat(UpsertItem(ds, p[0]), p[1..], q);
    }
  }

  lemma UpsertItemsSnoc(pieces: seq<string>, k: nat)
    requires k < |pieces|
    ensures UpsertItems([], pieces[..k + 1]) == UpsertItem(UpsertItems([], pieces[..k]), pieces[k])
  {
    var last := [pieces[k]];
    assert pieces[..k + 1] == pieces[..k] + last;
    UpsertItemsConcat([], pieces[..k], last);
    assert last[1..] == [];
  }

  /** The body of the loop over the items. */
  method UpsertPiece(ds: seq<Directive>, piece: string) returns (updated: seq<Directive>)
    requires UniqueTargets(ds)
    ensures updated == UpsertItem(ds, piece)
    ensures UniqueTargets(updated)
  {
    updated := ds;
    var item := ParseItem(piece);
    if item.Some? {
      var d := item.value;
      var i := Position(ds, d.target);
      UpsertAt(ds, d, i);
      updated := if i < |ds| then ds[i := d] else ds + [d];
    }
  }

  /** `TargetFilter::parse`. */
  method Parse(spec: string) returns (directives: seq<Directive>)
    ensures directives == ParseSpec(spec)
    ensures UniqueTargets(directives)
  {
    directives := [];
    var mods := Split(spec, '/')[0];
    var pieces := Split(mods, ',');
    var k := 0;
    while k < |pieces|
      invariant 0 <= k <= |pieces|
      invariant directives == UpsertItems([], pieces[..k])
      invariant UniqueTargets(directives)
    {
      UpsertItemsSnoc(pieces, k);
      directives := UpsertPiece(directives, pieces[k]);
      k := k + 1;
    }
    assert pieces[..k] == pieces;
  }

  // ---------- the last valid directive of a target wins ----------

  /** The level of the first directive for `target`. */
  function Find(ds: seq<Directive>, target: string): Option<Level> {
    if ds == [] then None
    else if ds[0].target == target then Some(ds[0].level)
    else Find(ds[1..], target)
  }

  /** The level that the last valid item for `target` gives it. */
  function LastLevel(pieces: seq<string>, target: string): Option<Level> {
    if pieces == [] then None
    else
      var later := LastLevel(pieces[1..], target);
      var item := ParseItem(pieces[0]);
      if later.Some? then later
      else if item.Some? && item.value.target == target then Some(item.value.level)
      else None
  }

  lemma {:induction false} FindUpsert(ds: seq<Directive>, d: Directive, target: string)
    ensures Find(Upsert(ds, d), target) == if target == d.target then Some(d.level) else Find(ds, target)
  {
    if ds != [] && ds[0].target != d.target {
      FindUpsert(ds[1..], d, target);
    }
  }

  lemma {:induction false} UpsertItemsFind(ds: seq<Directive>, pieces: seq<string>, target: string)
    ensures Find(UpsertItems(ds, pieces), target)
         == if LastLevel(pieces, target).Some? then LastLevel(pieces, target) else Find(ds, target)
    decreases pieces
  {
    if pieces != [] {
      UpsertItemsFind(UpsertItem(ds, pieces[0]), pieces[1..], target);
      var item := ParseItem(pieces[0]);
      if item.Some? {
        FindUpsert(ds, item.value, target);
      }
    }
  }

  /** Each target of a parsed filter has the level of its last valid directive, and targets without a
  valid directive are absent. */
  lemma LastDirectiveWins(spec: string, target: string)
    ensures Find(ParseSpec(spec), target) == LastLevel(Items(spec), target)
  {
    UpsertItemsFind([], Items(spec), target);
  }

  // ---------- parsing is compositional ----------

  /** `ds` with the directives of `later` applied on top. */
  function Overlay(ds: seq<Directive>, later: seq<Directive>): seq<Directive>
    decreases later
  {
    if later == [] then ds else Overlay(Upsert(ds, later[0]), later[1..])
  }

  lemma UpsertKeepsUnique(ds: seq<Directive>, d: Directive)
    requires UniqueTargets(ds)
    ensures UniqueTargets(Upsert(ds, d))
  {
    if HasTarget(ds, d.target) {
      var i :| 0 <= i < |ds| && ds[i].target == d.target;
      UpsertAt(ds, d, i);
      assert forall j :: 0 <= j < |ds| ==> ds[i := d][j].target == ds[j].target;
    } else {
      UpsertAt(ds, d, |ds|);
    }
  }

  lemma {:induction false} UpsertsCommute(ds: seq<Directive>, d: Directive, e: Directive)
    requires d.target != e.target && HasTarget(ds, d.target)
    ensures Upsert(Upsert(ds, e), d) == Upsert(Upsert(ds, d), e)
  {
    if ds[0].target != d.target {
      var i :| 0 <= i < |ds| && ds[i].target == d.target;
      assert ds[1..][i - 1] == ds[i];
      if ds[0].target != e.target {
        UpsertsCommute(ds[1..], d, e);
      }
    }
  }

  lemma {:induction false} UpsertTwice(ds: seq<Directive>, d: Directive, e: Directive)
    requires d.target == e.target
    ensures Upsert(Upsert(ds, e), d) == Upsert(ds, d)
    ensures HasTarget(Upsert(ds, e), d.target)
  {
    if ds == [] || ds[0].target == d.target {
      assert Upsert(ds, e)[0].target == d.target;
    } else {
      UpsertTwice(ds[1..], d, e);
      var i :| 0 <= i < |Upsert(ds[1..], e)| && Upsert(ds[1..], e)[i].target == d.target;
      assert Upsert(ds, e)[i + 1].target == d.target;
    }
  }

  lemma {:induction false} UpsertKeepsTarget(ds: seq<Directive>, d: Directive, target: string)
    requires HasTarget(ds, target)
    ensures HasTarget(Upsert(ds, d), target)
  {
    var i :| 0 <= i < |ds| && ds[i].target == target;
    if ds[0].target != d.target && i > 0 {
      assert ds[1..][i - 1] == ds[i];
      UpsertKeepsTarget(ds[1..], d, target);
      var j :| 0 <= j < |Upsert(ds[1..], d)| && Upsert(ds[1..], d)[j].target == target;
      assert Upsert(ds, d)[j + 1].target == target;
    } else {
      assert Upsert(ds, d)[i].target == target;
    }
  }

  lemma {:induction false} OverlayThenUpsert(ds: seq<Directive>, later: seq<Directive>, d: Directive)
    requires HasTarget(ds, d.target) && !HasTarget(later, d.target)
    ensures Upsert(Overlay(ds, later), d) == Overlay(Upsert(ds, d), later)
    decreases later
  {
    if later != [] {
      assert later[0].target != d.target;
      assert !HasTarget(later[1..], d.target);
      UpsertKeepsTarget(ds, later[0], d.target);
      OverlayThenUpsert(Upsert(ds, later[0]), later[1..], d);
      UpsertsCommute(ds, d, later[0]);
    }
  }

  lemma {:induction false} OverlayUpsert(ds: seq<Directive>, later: seq<Directive>, d: Directive)
    requires UniqueTargets(later)
    ensures Overlay(ds, Upsert(later, d)) == Upsert(Overlay(ds, later), d)
    decreases later
  {
    if later == [] {
      assert [d][1..] == [];
    } else {
      var x, rest := later[0], later[1..];
      if x.target == d.target {
        assert !HasTarget(rest, d.target);
        UpsertTwice(ds, d, x);
        OverlayThenUpsert(Upsert(ds, x), rest, d);
        assert Upsert(later, d) == [d] + rest;
      } else {
        OverlayUpsert(Upsert(ds, x), rest, d);
        assert Upsert(later, d) == [x] + Upsert(rest, d);
      }
    }
  }

  lemma {:induction false} UpsertItemsUnique(ds: seq<Directive>, pieces: seq<string>)
    requires UniqueTargets(ds)
    ensures UniqueTargets(UpsertItems(ds, pieces))
    decreases pieces
  {
    if pieces != [] {
      var item := ParseItem(pieces[0]);
      if item.Some? {
        UpsertKeepsUnique(ds, item.value);
      }
      UpsertItemsUnique(UpsertItem(ds, pieces[0]), pieces[1..]);
    }
  }

  lemma {:induction false} UpsertItemsOverlay(ds: seq<Directive>, pieces: seq<string>)
    ensures UpsertItems(ds, pieces) == Overlay(ds, UpsertItems([], pieces))
    decreases |pieces|
  {
    if pieces != [] {
      var before, last := pieces[..|pieces| - 1], pieces[|pieces| - 1];
      assert pieces == before + [last];
      UpsertItemsConcat(ds, before, [last]);
      UpsertItemsConcat([], before, [last]);
      assert [last][1..] == [];
      UpsertItemsOverlay(ds, before);
      UpsertItemsUnique([], before);
      var item := ParseItem(last);
      if item.Some? {
        OverlayUpsert(ds, UpsertItems([], before), item.value);
      }
    }
  }

  /** A spec written as two lists means the first overlaid with the second. */
  lemma ParseIsCompositional(a: string, b: string)
    requires '/' !in a
    ensures ParseSpec(a + "," + b) == Overlay(ParseSpec(a), ParseSpec(b))
  {
    var bMods := Split(b, '/')[0];
    PrefixBeforeSlash(a + ",", b);
    SplitConcat(a, bMods, ',');
    UpsertItemsConcat([], Items(a), Items(b));
    UpsertItemsOverlay(ParseSpec(a), Items(b));
  }

  lemma {:induction false} PrefixBeforeSlash(a: string, b: string)
    requires '/' !in a
    ensures Split(a + b, '/')[0] == a + Split(b, '/')[0]
  {
    if a == "" {
      assert a + b == b;
    } else {
      assert (a + b)[1..] == a[1..] + b;
      PrefixBeforeSlash(a[1..], b);
      ConcatAssociates([a[0]], a[1..], Split(b, '/')[0]);
      assert [a[0]] + a[1..] == a;
    }
  }

  // ---------- printing and parsing back ----------

  function PrintItem(d: Directive): string {
    d.target + "=" + Name(d.level)
  }

  function PrintItems(ds: seq<Directive>): seq<string> {
    if ds == [] then [] else [PrintItem(ds[0])] + PrintItems(ds[1..])
  }

  /** A filter written as a spec, the global default as `=level`. */
  function Print(ds: seq<Directive>): string {
    Join(PrintItems(ds), ',')
  }

  predicate Printable(target: string) {
    && ',' !in target && '=' !in target && '/' !in target
    && (target == "" || !IsWhitespace(target[0]))
  }

  lemma NameIsPlain(level: Level)
    ensures var n := Name(level);
            && n != "" && ',' !in n && '=' !in n && '/' !in n
            && !IsWhitespace(n[0]) && !IsWhitespace(n[|n| - 1])
  {
  }

  lemma NameParses(level: Level)
    ensures Trim(Name(level)) == Name(level) && Levels.Parse(Name(level)) == Some(level)
  {
    var n := Name(level);
    NameIsPlain(level);
    TrimFixed(n);
    LowerName(level);
  }

  function LowName(level: Level): string {
    match level
    case Trace => "trace"
    case Debug => "debug"
    case Info => "info"
    case Warn => "warn"
    case Error => "error"
    case Off => "off"
  }

  lemma LowerName(level: Level)
    ensures AsciiLower(Name(level)) == LowName(level)
  {
    LowerAt(Name(level));
  }

  lemma {:induction false} LowerAt(s: string)
    ensures forall i :: 0 <= i < |s| ==> AsciiLower(s)[i] == AsciiLowerChar(s[i])
  {
    if s != "" {
      LowerAt(s[1..]);
    }
  }

  lemma PrintedItemParses(d: Directive)
    requires Printable(d.target)
    ensures ParseItem(PrintItem(d)) == Some(d)
    ensures ',' !in PrintItem(d) && '/' !in PrintItem(d)
  {
    var n, item := Name(d.level), PrintItem(d);
    NameIsPlain(d.level);
    NameParses(d.level);
    assert item[|item| - 1] == n[|n| - 1];
    assert item[0] == if d.target == "" then '=' else d.target[0];
    TrimFixed(item);
    SplitConcat(d.target, n, '=');
    assert Split(item, '=') == [d.target, n];
  }

  lemma UpsertNew(ds: seq<Directive>, d: Directive, rest: seq<Directive>)
    requires UniqueTargets(ds + [d] + rest)
    ensures Upsert(ds, d) == ds + [d]
  {
    var all := ds + [d] + rest;
    assert all[|ds|] == d;
    forall i | 0 <= i < |ds|
      ensures ds[i].target != d.target
    {
      assert all[i] == ds[i];
    }
    UpsertAt(ds, d, |ds|);
  }

  lemma {:induction false} PrintedItemsParse(before: seq<Directive>, ds: seq<Directive>)
    requires UniqueTargets(before + ds)
    requires forall i :: 0 <= i < |ds| ==> Printable(ds[i].target)
    ensures UpsertItems(before, PrintItems(ds)) == before + ds
    decreases ds
  {
    if ds == [] {
      assert before + ds == before;
    } else {
      PrintedItemParses(ds[0]);
      assert before + [ds[0]] + ds[1..] == before + ds;
      UpsertNew(before, ds[0], ds[1..]);
      PrintedItemsParse(before + [ds[0]], ds[1..]);
      assert PrintItems(ds)[1..] == PrintItems(ds[1..]);
    }
  }

  lemma {:induction false} PrintedItemsPlain(ds: seq<Directive>)
    requires forall i :: 0 <= i < |ds| ==> Printable(ds[i].target)
    ensures |PrintItems(ds)| == |ds|
    ensures forall i :: 0 <= i < |ds| ==> ',' !in PrintItems(ds)[i] && '/' !in PrintItems(ds)[i]
  {
    if ds != [] {
      PrintedItemParses(ds[0]);
      PrintedItemsPlain(ds[1..]);
    }
  }

  lemma {:induction false} JoinFree(pieces: seq<string>, sep: char, c: char)
    requires c != sep && forall i :: 0 <= i < |pieces| ==> c !in pieces[i]
    ensures c !in Join(pieces, sep)
  {
    if |pieces| > 1 {
      JoinFree(pieces[1..], sep, c);
    }
  }

  /** Printing a filter and parsing it returns the same list of directives. */
  lemma PrintThenParse(ds: seq<Directive>)
    requires UniqueTargets(ds)
    requires forall i :: 0 <= i < |ds| ==> Printable(ds[i].target)
    ensures ParseSpec(Print(ds)) == ds
  {
    assert [] + ds == ds;
    PrintedItemsParse([], ds);
    PrintedItemsPlain(ds);
    JoinFree(PrintItems(ds), ',', '/');
    assert Split(Print(ds), '/')[0] == Print(ds);
    if ds == [] {
      assert Items("") == [""];
      assert [""][1..] == [];
      assert ParseItem("") == None;
    } else {
      SplitJoin(PrintItems(ds), ',');
    }
  }

  // ---------- the most specific match ----------

  /** `module_matches`. */
  predicate ModuleMatches(directive: string, target: string) {
    target == directive || (StartsWith(target, directive) && StartsWith(target[|directive|..], "::"))
  }

  /** `global_default`. */
  function GlobalDefault(ds: seq<Directive>): Option<Level> {
    Find(ds, "")
  }

  function DefaultLevel(ds: seq<Directive>, base: Level): Level {
    GlobalDefault(ds).GetOr(base)
  }

  /** `target[..n]` is `target` or one of its ancestor modules. */
  predicate IsModuleEnd(target: string, n: nat) {
    n == |target| || (n < |target| && StartsWith(target[n..], "::"))
  }

  /** The level of the longest module prefix of `target`, up to `n` long, that has a directive. */
  function LongestMatch(ds: seq<Directive>, target: string, n: nat): Option<Level>
    requires n <= |target|
  {
    if n == 0 then None
    else if IsModuleEnd(target, n) && Find(ds, target[..n]).Some? then Find(ds, target[..n])
    else LongestMatch(ds, target, n - 1)
  }

  /** What the threshold of `target` should be. */
  function EffectiveLevel(ds: seq<Directive>, target: string, base: Level): Level {
    LongestMatch(ds, target, |target|).GetOr(DefaultLevel(ds, base))
  }

  lemma MatchIsPrefix(directive: string, target: string)
    ensures ModuleMatches(directive, target) <==>
              |directive| <= |target| && directive == target[..|directive|] && IsModuleEnd(target, |directive|)
  {
    assert target[..|target|] == target;
  }

  lemma PrefixByteLen(target: string, m: nat, n: nat)
    requires m <= |target| && n <= |target|
    ensures ByteLen(target[..m]) > ByteLen(target[..n]) <==> m > n
  {
    var lo, hi := if m < n then m else n, if m < n then n else m;
    assert target[..hi] == target[..lo] + target[lo..hi];
    ByteLenConcat(target[..lo], target[lo..hi]);
    ByteLenAtLeast(target[lo..hi]);
    assert lo == hi ==> target[lo..hi] == "";
  }

  /** `best` after the first `k` directives: the longest match among them. */
  ghost predicate BestOf(ds: seq<Directive>, k: nat, target: string, best: Option<(nat, Level)>) {
    && k <= |ds|
    && (best.None? ==> forall i :: 0 <= i < k && ds[i].target != "" ==> !ModuleMatches(ds[i].target, target))
    && (best.Some? ==>
          && (exists i :: 0 <= i < k && ds[i].target != "" && ModuleMatches(ds[i].target, target)
                && best.value == (ByteLen(ds[i].target), ds[i].level))
          && forall i :: 0 <= i < k && ds[i].target != "" && ModuleMatches(ds[i].target, target) ==>
               ByteLen(ds[i].target) <= best.value.0)
  }

  lemma {:induction false} FindUnique(ds: seq<Directive>, i: nat)
    requires UniqueTargets(ds) && i < |ds|
    ensures Find(ds, ds[i].target) == Some(ds[i].level)
  {
    if i > 0 {
      assert ds[0].target != ds[i].target;
      FindUnique(ds[1..], i - 1);
    }
  }

  lemma {:induction false} FindIsMember(ds: seq<Directive>, target: string)
    ensures Find(ds, target).Some? ==> Directive(target, Find(ds, target).value) in ds
    ensures Find(ds, target).None? ==> !HasTarget(ds, target)
  {
    if ds != [] && ds[0].target != target {
      FindIsMember(ds[1..], target);
      if HasTarget(ds, target) {
        var i :| 0 <= i < |ds| && ds[i].target == target;
        assert ds[1..][i - 1] == ds[i];
      }
    }
  }

  lemma {:induction false} NoMatchBelow(ds: seq<Directive>, target: string, n: nat)
    requires n <= |target|
    requires forall i :: 0 <= i < |ds| && 0 < |ds[i].target| <= n ==> !ModuleMatches(ds[i].target, target)
    ensures LongestMatch(ds, target, n).None?
    decreases n
  {
    if n > 0 {
      FindIsMember(ds, target[..n]);
      MatchIsPrefix(target[..n], target);
      NoMatchBelow(ds, target, n - 1);
    }
  }

  lemma {:induction false} MatchFrom(ds: seq<Directive>, target: string, n: nat, best: nat)
    requires UniqueTargets(ds) && best < |ds| && ds[best].target != ""
    requires ModuleMatches(ds[best].target, target) && |ds[best].target| <= n <= |target|
    requires forall i :: 0 <= i < |ds| && ModuleMatches(ds[i].target, target) ==> |ds[i].target| <= |ds[best].target|
    ensures LongestMatch(ds, target, n) == Some(ds[best].level)
    decreases n
  {
    MatchIsPrefix(ds[best].target, target);
    FindUnique(ds, best);
    if n > |ds[best].target| {
      FindIsMember(ds, target[..n]);
      MatchIsPrefix(target[..n], target);
      MatchFrom(ds, target, n - 1, best);
    }
  }

  lemma BestIsLongest(ds: seq<Directive>, target: string, best: Option<(nat, Level)>)
    requires UniqueTargets(ds) && BestOf(ds, |ds|, target, best)
    ensures LongestMatch(ds, target, |target|) == if best.Some? then Some(best.value.1) else None
  {
    if best.None? {
      NoMatchBelow(ds, target, |target|);
    } else {
      var b :| 0 <= b < |ds| && ds[b].target != "" && ModuleMatches(ds[b].target, target)
               && best.value == (ByteLen(ds[b].target), ds[b].level);
      MatchIsPrefix(ds[b].target, target);
      forall i | 0 <= i < |ds| && ModuleMatches(ds[i].target, target)
        ensures |ds[i].target| <= |ds[b].target|
      {
        MatchIsPrefix(ds[i].target, target);
        PrefixByteLen(target, |ds[i].target|, |ds[b].target|);
      }
      MatchFrom(ds, target, |target|, b);
    }
  }

  /** `effective_level`: the loop keeps the longest match in bytes, and finds the most specific one. */
  method FindEffectiveLevel(ds: seq<Directive>, target: string, base: Level) returns (level: Level)
    requires UniqueTargets(ds)
    ensures level == EffectiveLevel(ds, target, base)
  {
    var best: Option<(nat, Level)> := None;
    var k := 0;
    while k < |ds|
      invariant 0 <= k <= |ds|
      invariant BestOf(ds, k, target, best)
    {
      if ds[k].target != "" && ModuleMatches(ds[k].target, target) {
        var len := ByteLen(ds[k].target);
        if best.None? || best.value.0 <= len {
          best := Some((len, ds[k].level));
        }
      }
      k := k + 1;
    }
    BestIsLongest(ds, target, best);
    level := if best.Some? then best.value.1 else DefaultLevel(ds, base);
  }

  /** `enabled`. */
  predicate Enabled(ds: seq<Directive>, target: string, level: Level, base: Level) {
    var effective := EffectiveLevel(ds, target, base);
    level != Off && effective != Off && Rank(level) >= Rank(effective)
  }

  lemma SameDirectivesSameFind(a: seq<Directive>, b: seq<Directive>, target: string)
    requires UniqueTargets(a) && UniqueTargets(b)
    requires forall d :: d in a <==> d in b
    ensures Find(a, target) == Find(b, target)
  {
    FindIsMember(a, target);
    FindIsMember(b, target);
    if Find(a, target).Some? {
      var i :| 0 <= i < |b| && b[i] == Directive(target, Find(a, target).value);
      FindUnique(b, i);
    }
  }

  lemma {:induction false} SameFindSameMatch(a: seq<Directive>, b: seq<Directive>, target: string, n: nat)
    requires n <= |target|
    requires forall t :: Find(a, t) == Find(b, t)
    ensures LongestMatch(a, target, n) == LongestMatch(b, target, n)
    decreases n
  {
    if n > 0 {
      SameFindSameMatch(a, b, target, n - 1);
    }
  }

  /** The order of the directives does not matter. */
  lemma OrderDoesNotMatter(a: seq<Directive>, b: seq<Directive>, target: string, level: Level, base: Level)
    requires UniqueTargets(a) && UniqueTargets(b)
    requires forall d :: d in a <==> d in b
    ensures EffectiveLevel(a, target, base) == EffectiveLevel(b, target, base)
    ensures Enabled(a, target, level, base) == Enabled(b, target, level, base)
  {
    forall t
      ensures Find(a, t) == Find(b, t)
    {
      SameDirectivesSameFind(a, b, t);
    }
    SameFindSameMatch(a, b, target, |target|);
  }

  /** A record that passes would pass at every higher level below `Off`, and a target switched off lets
  nothing pass. */
  lemma EnabledIsUpwardClosed(ds: seq<Directive>, target: string, level: Level, higher: Level, base: Level)
    requires Rank(level) <= Rank(higher) < Rank(Off)
    ensures Enabled(ds, target, level, base) ==> Enabled(ds, target, higher, base)
    ensures EffectiveLevel(ds, target, base) == Off ==> !Enabled(ds, target, higher, base)
  {
  }
}
