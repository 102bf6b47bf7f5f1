/** What a filter spec means, item by item, in the terms of its documentation. */
module FilterGrammar {
  import opened Basics
  import opened Levels
  import opened Strings
  import opened Filters

  // ---------- the names of levels ----------

  /** `s` is the lower-case word `word`, in any mixture of upper and lower case. */
  predicate Spells(s: string, word: string) {
    |s| == |word| && forall i :: 0 <= i < |s| ==> s[i] == word[i] || s[i] as int + 32 == word[i] as int
  }

  predicate NamesLevel(s: string, level: Level) {
    Spells(s, LowName(level)) || (level == Warn && Spells(s, "warning"))
  }

  predicate IsLevelName(s: string) {
    exists level :: NamesLevel(s, level)
  }

  predicate LowerCase(word: string) {
    forall i :: 0 <= i < |word| ==> 'a' <= word[i] <= 'z'
  }

  lemma LowerSpells(s: string, word: string)
    requires LowerCase(word)
    ensures AsciiLower(s) == word <==> Spells(s, word)
  {
    LowerAt(s);
  }

  lemma LowNamesAreLower(level: Level)
    ensures LowerCase(LowName(level)) && LowName(level) != "" && LowerCase("warning")
  {
  }

  lemma ParsesLower(s: string, level: Level)
    ensures var low := AsciiLower(Trim(s));
            Levels.Parse(s) == Some(level) <==> low == LowName(level) || (level == Warn && low == "warning")
  {
  }

  /** A level name stands for one level, the one it parses to; any other text parses to none. */
  lemma LevelNames(s: string, level: Level)
    requires Unpadded(s)
    ensures Levels.Parse(s) == Some(level) <==> NamesLevel(s, level)
  {
    TrimFixed(s);
    ParsesLower(s, level);
    LowNamesAreLower(level);
    LowerSpells(s, LowName(level));
    LowerSpells(s, "warning");
  }

  predicate Letters(s: string) {
    s != "" && forall i :: 0 <= i < |s| ==> 'A' <= s[i] <= 'Z' || 'a' <= s[i] <= 'z'
  }

  /** The canonical names are the level names in capitals. */
  lemma CanonicalNames(level: Level)
    ensures NamesLevel(Name(level), level)
    ensures forall i :: 0 <= i < |Name(level)| ==> 'A' <= Name(level)[i] <= 'Z'
  {
  }

  lemma SpelledLetters(s: string, word: string)
    requires LowerCase(word) && word != "" && Spells(s, word)
    ensures Letters(s)
  {
  }

  lemma NamesAreLetters(s: string, level: Level)
    requires NamesLevel(s, level)
    ensures Letters(s) && Unpadded(s) && Plain(s)
  {
    SpelledLetters(s, if Spells(s, LowName(level)) then LowName(level) else "warning");
  }

  // ---------- single items ----------

  predicate NoSeparator(s: string) {
    ',' !in s && '/' !in s
  }

  predicate Plain(s: string) {
    NoSeparator(s) && '=' !in s
  }

  lemma WhiteIsPlain(s: string)
    requires AllWhite(s)
    ensures Plain(s)
  {
    assert forall c :: c in s ==> IsWhitespace(c);
  }

  /** A spec without separators is one item. */
  lemma OneItem(item: string)
    requires NoSeparator(item)
    ensures ParseSpec(item) == if ParseItem(item).Some? then [ParseItem(item).value] else []
  {
    assert Items(item) == [item] && [item][1..] == [];
    assert UpsertItems(UpsertItem([], item), []) == UpsertItem([], item);
  }

  /** With one `=` an item has two parts. */
  lemma TwoParts(a: string, b: string)
    requires '=' !in a && '=' !in b
    ensures Split(a + "=" + b, '=') == [a, b]
  {
    SplitConcat(a, b, '=');
    assert Split(a, '=') + Split(b, '=') == [a, b];
  }

  /** White space means nothing. */
  lemma BlankItem(white: string)
    requires AllWhite(white)
    ensures ParseSpec(white) == []
  {
    WhiteIsPlain(white);
    OneItem(white);
    TrimPadding(white, "", "");
    assert white + "" + "" == white;
  }

  /** A level name alone, in any case, sets the global default; so does `warning`, as `warn`. */
  lemma BareLevel(before: string, name: string, after: string, level: Level)
    requires AllWhite(before) && AllWhite(after) && NamesLevel(name, level)
    ensures ParseSpec(before + name + after) == [Directive("", level)]
  {
    NamesAreLetters(name, level);
    WhiteIsPlain(before);
    WhiteIsPlain(after);
    OneItem(before + name + after);
    TrimPadding(before, name, after);
    LevelNames(name, level);
  }

  /** Any other token alone is a target, with everything let through. */
  lemma BareTarget(before: string, token: string, after: string)
    requires AllWhite(before) && AllWhite(after)
    requires token != "" && Unpadded(token) && Plain(token) && !IsLevelName(token)
    ensures ParseSpec(before + token + after) == [Directive(token, Trace)]
  {
    WhiteIsPlain(before);
    WhiteIsPlain(after);
    OneItem(before + token + after);
    TrimPadding(before, token, after);
    if Levels.Parse(token).Some? {
      LevelNames(token, Levels.Parse(token).value);
    }
  }

  predicate Target(s: string) {
    Plain(s) && (s == "" || !IsWhitespace(s[0]))
  }

  /** What is left of an item with one `=` when the white space around it is gone. */
  lemma ItemTrims(before: string, target: string, level: string, after: string)
    requires AllWhite(before) && AllWhite(after) && Target(target)
    requires level == "" || !IsWhitespace(level[|level| - 1])
    ensures Trim(before + (target + "=" + level) + after) == target + "=" + level
  {
    var raw := target + "=" + level;
    assert raw[0] == if target == "" then '=' else target[0];
    assert raw[|raw| - 1] == if level == "" then '=' else level[|level| - 1];
    TrimPadding(before, raw, after);
  }

  /** What a target and a level name give. */
  function Given(target: string, name: string): seq<Directive> {
    if name == "" then if target == "" then [] else [Directive(target, Trace)]
    else if Levels.Parse(name).Some? then [Directive(target, Levels.Parse(name).value)]
    else []
  }

  /** An item with one `=`. */
  lemma ItemWithLevel(before: string, target: string, level: string, after: string)
    requires AllWhite(before) && AllWhite(after) && Target(target) && Plain(level)
    requires level == "" || !IsWhitespace(level[|level| - 1])
    ensures ParseSpec(before + (target + "=" + level) + after) == Given(target, Trim(level))
  {
    WhiteIsPlain(before);
    WhiteIsPlain(after);
    OneItem(before + (target + "=" + level) + after);
    ItemTrims(before, target, level, after);
    TwoParts(target, level);
  }

  /** `target=` is the target alone, even if its name is that of a level; a lone `=` means nothing. */
  lemma TargetAlone(before: string, target: string, after: string)
    requires AllWhite(before) && AllWhite(after) && Target(target)
    ensures ParseSpec(before + (target + "=") + after) == if target == "" then [] else [Directive(target, Trace)]
  {
    assert target + "=" + "" == target + "=";
    TrimFixed("");
    ItemWithLevel(before, target, "", after);
  }

  /** `target=name` has the level that is named, in any case, with white space around it; without a target it is
  the global default. A name that is not a level's makes the item void. */
  lemma TargetLevel(before: string, target: string, gap: string, name: string, after: string)
    requires AllWhite(before) && AllWhite(gap) && AllWhite(after) && Target(target)
    requires name != "" && Plain(name) && Unpadded(name)
    ensures var ds := ParseSpec(before + (target + "=" + (gap + name)) + after);
            && (forall level :: NamesLevel(name, level) ==> ds == [Directive(target, level)])
            && (!IsLevelName(name) ==> ds == [])
  {
    WhiteIsPlain(gap);
    TrimPadding(gap, name, "");
    assert gap + name + "" == gap + name;
    ItemWithLevel(before, target, gap + name, after);
    forall level
      ensures Levels.Parse(name) == Some(level) <==> NamesLevel(name, level)
    {
      LevelNames(name, level);
    }
  }

  lemma PlainLevel(name: string, level: Level)
    requires NamesLevel(name, level)
    ensures ParseSpec(name) == [Directive("", level)]
  {
    BareLevel("", name, "", level);
    assert "" + name + "" == name;
  }

  lemma PlainTargetLevel(target: string, name: string, level: Level)
    requires Target(target) && NamesLevel(name, level)
    ensures ParseSpec(target + "=" + name) == [Directive(target, level)]
  {
    NamesAreLetters(name, level);
    TargetLevel("", target, "", name, "");
    assert "" + name == name && "" + (target + "=" + name) + "" == target + "=" + name;
  }

  // ---------- items with more than one `=` ----------

  lemma SplitDrop(s: string, sep: char)
    requires s != "" && s[0] != sep
    ensures |Split(s[1..], sep)| == |Split(s, sep)|
  {
  }

  lemma {:induction false} SplitDropLast(s: string, sep: char)
    requires s != "" && s[|s| - 1] != sep
    ensures |Split(s[..|s| - 1], sep)| == |Split(s, sep)|
  {
    if |s| > 1 {
      SplitDropLast(s[1..], sep);
      assert s[1..][..|s| - 2] == s[..|s| - 1][1..];
    } else {
      assert s[1..] == "" && s[..0] == "";
    }
  }

  lemma {:induction false} TrimStartKeepsParts(s: string)
    ensures |Split(TrimStart(s), '=')| == |Split(s, '=')|
  {
    if s != "" && IsWhitespace(s[0]) {
      SplitDrop(s, '=');
      TrimStartKeepsParts(s[1..]);
    }
  }

  lemma {:induction false} TrimEndKeepsParts(s: string)
    ensures |Split(TrimEnd(s), '=')| == |Split(s, '=')|
  {
    if s != "" && IsWhitespace(s[|s| - 1]) {
      SplitDropLast(s, '=');
      TrimEndKeepsParts(s[..|s| - 1]);
    }
  }

  /** An item with a second `=` is void. */
  lemma SecondEquals(a: string, b: string, c: string)
    requires NoSeparator(a) && NoSeparator(b) && NoSeparator(c)
    ensures ParseSpec(a + "=" + b + "=" + c) == []
  {
    var item := a + "=" + b + "=" + c;
    OneItem(item);
    SplitConcat(a + "=" + b, c, '=');
    SplitConcat(a, b, '=');
    TrimStartKeepsParts(item);
    TrimEndKeepsParts(TrimStart(item));
  }

  /** Everything from the first `/` on is ignored. */
  lemma SlashEnds(spec: string, rest: string)
    ensures ParseSpec(spec + "/" + rest) == ParseSpec(spec)
  {
    SplitConcat(spec, rest, '/');
  }
}
