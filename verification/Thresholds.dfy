/** Which records pass a filter, said of the specs that users write. */
module Thresholds {
  import opened Basics
  import opened Levels
  import opened Strings
  import opened Filters
  import opened FilterGrammar

  /** The levels that pass a threshold: itself and the more severe ones; `Off` neither passes nor lets pass. */
  function AtOrAbove(threshold: Level): set<Level> {
    match threshold
    case Trace => {Trace, Debug, Info, Warn, Error}
    case Debug => {Debug, Info, Warn, Error}
    case Info => {Info, Warn, Error}
    case Warn => {Warn, Error}
    case Error => {Error}
    case Off => {}
  }

  /** The module `path` or one inside it. */
  predicate Under(path: string, target: string) {
    target == path || StartsWith(target, path + "::")
  }

  lemma MatchesIff(path: string, target: string)
    ensures ModuleMatches(path, target) <==> Under(path, target)
  {
    if StartsWith(target, path + "::") {
      assert target[..|path| + 2][..|path|] == target[..|path|];
      assert (path + "::")[..|path|] == path && (path + "::")[|path|..] == "::";
      assert target[|path|..][..2] == target[..|path| + 2][|path|..];
    }
    if StartsWith(target, path) && StartsWith(target[|path|..], "::") {
      assert target[..|path| + 2] == target[..|path|] + target[|path|..][..2];
    }
  }

  /** A record passes exactly if its level is at or above the threshold of its target. */
  lemma EnabledExactly(ds: seq<Directive>, target: string, level: Level, base: Level)
    ensures Enabled(ds, target, level, base) <==> level in AtOrAbove(EffectiveLevel(ds, target, base))
  {
  }

  /** The threshold of a target is the level of the directive for the innermost module that has one. */
  lemma InnermostDecides(ds: seq<Directive>, i: nat, target: string, base: Level)
    requires UniqueTargets(ds) && i < |ds| && ds[i].target != "" && Under(ds[i].target, target)
    requires forall j :: 0 <= j < |ds| && Under(ds[j].target, target) ==> |ds[j].target| <= |ds[i].target|
    ensures EffectiveLevel(ds, target, base) == ds[i].level
  {
    forall j | 0 <= j < |ds|
      ensures ModuleMatches(ds[j].target, target) <==> Under(ds[j].target, target)
    {
      MatchesIff(ds[j].target, target);
    }
    MatchIsPrefix(ds[i].target, target);
    MatchFrom(ds, target, |target|, i);
  }

  /** Where no directive is for the target, the global default decides if there is one, and else the base. */
  lemma DefaultDecides(ds: seq<Directive>, target: string, base: Level)
    requires UniqueTargets(ds)
    requires forall j :: 0 <= j < |ds| && ds[j].target != "" ==> !Under(ds[j].target, target)
    ensures forall i :: 0 <= i < |ds| && ds[i].target == "" ==> EffectiveLevel(ds, target, base) == ds[i].level
    ensures !HasTarget(ds, "") ==> EffectiveLevel(ds, target, base) == base
  {
    forall j | 0 <= j < |ds|
      ensures ModuleMatches(ds[j].target, target) <==> Under(ds[j].target, target)
    {
      MatchesIff(ds[j].target, target);
    }
    NoMatchBelow(ds, target, |target|);
    FindIsMember(ds, "");
    forall i | 0 <= i < |ds| && ds[i].target == ""
      ensures Find(ds, "") == Some(ds[i].level)
    {
      FindUnique(ds, i);
    }
  }

  // ---------- on specs ----------

  /** Without a directive the base decides. */
  lemma BlankSpec(white: string, target: string, level: Level, base: Level)
    requires AllWhite(white)
    ensures Enabled(ParseSpec(white), target, level, base) <==> level in AtOrAbove(base)
  {
    BlankItem(white);
    DefaultDecides([], target, base);
    EnabledExactly([], target, level, base);
  }

  /** With a level name alone that level decides for every target, whatever the base. */
  lemma LevelSpec(name: string, threshold: Level, target: string, level: Level, base: Level)
    requires NamesLevel(name, threshold)
    ensures Enabled(ParseSpec(name), target, level, base) <==> level in AtOrAbove(threshold)
  {
    var ds := [Directive("", threshold)];
    PlainLevel(name, threshold);
    DefaultDecides(ds, target, base);
    assert ds[0].target == "";
    EnabledExactly(ds, target, level, base);
  }

  lemma OneTarget(path: string, inner: Level, target: string, base: Level)
    requires path != ""
    ensures EffectiveLevel([Directive(path, inner)], target, base) == if Under(path, target) then inner else base
  {
    var ds := [Directive(path, inner)];
    assert ds[0].target == path;
    if Under(path, target) {
      InnermostDecides(ds, 0, target, base);
    } else {
      DefaultDecides(ds, target, base);
    }
  }

  /** `path=level`: it decides for the module and what is inside it, the base for all else. */
  lemma TargetSpec(path: string, name: string, inner: Level, target: string, level: Level, base: Level)
    requires NamesLevel(name, inner) && path != "" && Target(path)
    ensures Enabled(ParseSpec(path + "=" + name), target, level, base)
        <==> level in AtOrAbove(if Under(path, target) then inner else base)
  {
    PlainTargetLevel(path, name, inner);
    OneTarget(path, inner, target, base);
    EnabledExactly([Directive(path, inner)], target, level, base);
  }

  lemma DefaultAndTarget(fallback: Level, path: string, inner: Level, target: string, base: Level)
    requires path != ""
    ensures EffectiveLevel([Directive("", fallback), Directive(path, inner)], target, base)
         == if Under(path, target) then inner else fallback
  {
    var ds := [Directive("", fallback), Directive(path, inner)];
    assert ds[0].target == "" && ds[1].target == path;
    if Under(path, target) {
      InnermostDecides(ds, 1, target, base);
    } else {
      DefaultDecides(ds, target, base);
    }
  }

  lemma OverlayOne(d: Directive, e: Directive)
    requires d.target != e.target
    ensures Overlay([d], [e]) == [d, e]
  {
    assert [e][1..] == [] && [d][1..] == [];
    assert Upsert([d], e) == [d, e] && Overlay([d, e], []) == [d, e];
  }

  /** `level,path=level`: the second decides for the module and what is inside it, the first for all else, and
  the base for nothing. */
  lemma LevelAndTargetSpec(outer: string, fallback: Level, path: string, name: string, inner: Level,
                           target: string, level: Level, base: Level)
    requires NamesLevel(outer, fallback) && NamesLevel(name, inner) && path != "" && Target(path)
    ensures Enabled(ParseSpec(outer + "," + (path + "=" + name)), target, level, base)
        <==> level in AtOrAbove(if Under(path, target) then inner else fallback)
  {
    NamesAreLetters(outer, fallback);
    ParseIsCompositional(outer, path + "=" + name);
    PlainLevel(outer, fallback);
    PlainTargetLevel(path, name, inner);
    OverlayOne(Directive("", fallback), Directive(path, inner));
    DefaultAndTarget(fallback, path, inner, target, base);
    EnabledExactly([Directive("", fallback), Directive(path, inner)], target, level, base);
  }
}
