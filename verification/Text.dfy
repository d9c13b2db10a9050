/** Lists in text: joining with ", " and splitting at it. */
module Text {

  const SEPARATOR := ", "

  function Join(parts: seq<string>): string {
    if parts == [] then ""
    else if |parts| == 1 then parts[0]
    else parts[0] + SEPARATOR + Join(parts[1..])
  }

  /** The separator stands at place i of s. */
  predicate SeparatorAt(s: string, i: nat) {
    i + 2 <= |s| && s[i] == ',' && s[i + 1] == ' '
  }

  predicate FreeOfSeparator(s: string) {
    forall i :: 0 <= i < |s| ==> !SeparatorAt(s, i)
  }

  /** The first place of the separator from place `from` on, or |s|. */
  function FindSeparator(s: string, from: nat): (r: nat)
    requires from <= |s|
    ensures from <= r <= |s|
    ensures r < |s| ==> SeparatorAt(s, r)
    ensures forall i :: from <= i < r ==> !SeparatorAt(s, i)
    decreases |s| - from
  {
    if from == |s| || SeparatorAt(s, from) then from else FindSeparator(s, from + 1)
  }

  /** str.split(', '): cut at the leftmost separator, again and again. */
  function Split(s: string): (parts: seq<string>)
    ensures parts != []
    decreases |s|
  {
    var i := FindSeparator(s, 0);
    if i == |s| then [s] else [s[..i]] + Split(s[i + 2..])
  }

  /** Splitting undoes joining: a part free of the separator cannot make one with what follows. */
  lemma {:induction false} SplitJoin(parts: seq<string>)
    requires parts != [] && forall p :: p in parts ==> FreeOfSeparator(p)
    ensures Split(Join(parts)) == parts
  {
    var p := parts[0];
    assert FreeOfSeparator(p);
    if |parts| == 1 {
      assert FindSeparator(p, 0) == |p|;
    } else {
      var rest := Join(parts[1..]);
      var s := p + SEPARATOR + rest;
      assert SeparatorAt(s, |p|);
      forall i | 0 <= i < |p| ensures !SeparatorAt(s, i) {
        assert !SeparatorAt(p, i);
        if i + 1 == |p| {
          assert s[i + 1] == ',';
        } else {
          assert s[i] == p[i] && s[i + 1] == p[i + 1];
        }
      }
      var f := FindSeparator(s, 0);
      assert f == |p|;
      assert s[..f] == p && s[f + 2..] == rest;
      SplitJoin(parts[1..]);
      assert parts == [p] + parts[1..];
    }
  }

  lemma {:induction false} JoinOfTwo(parts: seq<string>)
    requires |parts| >= 2
    ensures ',' in Join(parts)
  {
    assert Join(parts)[|parts[0]|] == ',';
  }

  /** Joining undoes splitting, whatever the text. */
  lemma {:induction false} JoinSplit(s: string)
    ensures Join(Split(s)) == s
    decreases |s|
  {
    var i := FindSeparator(s, 0);
    if i < |s| {
      var rest := s[i + 2..];
      JoinSplit(rest);
      assert Split(s)[1..] == Split(rest);
      assert s == s[..i] + SEPARATOR + rest;
    }
  }

  // ---------------------------------------------------------------------------------------------
  // White space and case
  // ---------------------------------------------------------------------------------------------

  const SPACES := {' ', '\t', '\n', '\r', '\U{0B}', '\U{0C}'}

  /** strings.TrimSpace on ASCII text */
  function TrimSpace(s: string): (r: string)
    ensures r != "" ==> r[0] !in SPACES && r[|r| - 1] !in SPACES
  {
    if s != "" && s[0] in SPACES then TrimSpace(s[1..])
    else if s != "" && s[|s| - 1] in SPACES then TrimSpace(s[..|s| - 1])
    else s
  }

  lemma AlreadyTrimmed(s: string)
    requires s != "" ==> s[0] !in SPACES && s[|s| - 1] !in SPACES
    ensures TrimSpace(s) == s
  {
  }

  /** strings.ToLower on ASCII text */
  function Lower(s: string): string {
    seq(|s|, i requires 0 <= i < |s| =>
      if 'A' <= s[i] <= 'Z' then (s[i] as int + 32) as char else s[i])
  }

  // What both mean for a reader: padding and the case of letters do not matter.

  const UPPER := "ABCDEFGHIJKLMNOPQRSTUVWXYZ"
  const LOWER := "abcdefghijklmnopqrstuvwxyz"

  ghost predicate Blank(s: string) {
    forall c :: c in s ==> c in SPACES
  }

  /** `c` is the small letter `d`, or its capital, or any other character that is `d` itself. */
  ghost predicate SameLetter(c: char, d: char) {
    c == d || exists k :: 0 <= k < 26 && c == UPPER[k] && d == LOWER[k]
  }

  ghost predicate SameLetters(s: string, word: string) {
    |s| == |word| && forall i :: 0 <= i < |s| ==> SameLetter(s[i], word[i])
  }

  /** Between white space, the text is the word, whatever the case of its letters. */
  ghost predicate Spells(text: string, word: string) {
    exists before, core, after ::
      text == before + core + after && Blank(before) && Blank(after) && SameLetters(core, word)
  }

  /** A word as the bridge's tables have them: no capitals, and no white space at its ends. */
  predicate Plain(word: string) {
    && (forall i :: 0 <= i < |word| ==> !('A' <= word[i] <= 'Z'))
    && (word != "" ==> word[0] !in SPACES && word[|word| - 1] !in SPACES)
  }

  lemma {:induction false} TrimmedFront(before: string, s: string)
    requires Blank(before)
    ensures TrimSpace(before + s) == TrimSpace(s)
  {
    if before == "" {
      assert before + s == s;
    } else {
      assert before[0] in before;
      assert (before + s)[1..] == before[1..] + s;
      TrimmedFront(before[1..], s);
    }
  }

  lemma {:induction false} TrimmedBack(core: string, after: string)
    requires Blank(after) && (core != "" ==> core[0] !in SPACES && core[|core| - 1] !in SPACES)
    ensures TrimSpace(core + after) == core
    decreases |after|
  {
    var s := core + after;
    if after == "" {
      assert s == core;
    } else if core == "" {
      assert after[0] in after && s[1..] == core + after[1..];
      TrimmedBack(core, after[1..]);
    } else {
      assert after[|after| - 1] in after && s[..|s| - 1] == core + after[..|after| - 1];
      TrimmedBack(core, after[..|after| - 1]);
    }
  }

  lemma {:induction false} TrimmedParts(s: string) returns (before: string, after: string)
    ensures s == before + TrimSpace(s) + after && Blank(before) && Blank(after)
  {
    before, after := "", "";
    if s != "" && s[0] in SPACES {
      before, after := TrimmedParts(s[1..]);
      before := [s[0]] + before;
    } else if s != "" && s[|s| - 1] in SPACES {
      before, after := TrimmedParts(s[..|s| - 1]);
      after := after + [s[|s| - 1]];
    }
  }

  lemma SmallLetter(c: char, d: char)
    requires !('A' <= d <= 'Z')
    ensures SameLetter(c, d) <==> d == if 'A' <= c <= 'Z' then (c as int + 32) as char else c
  {
    assert forall k :: 0 <= k < 26 ==> UPPER[k] as int == 'A' as int + k && LOWER[k] as int == 'a' as int + k;
    if 'A' <= c <= 'Z' {
      var k := c as int - 'A' as int;
      assert UPPER[k] == c;
    }
  }

  lemma SmallLetters(s: string, word: string)
    requires Plain(word)
    ensures SameLetters(s, word) <==> Lower(s) == word
  {
    forall i | 0 <= i < |s| && |s| == |word| ensures SameLetter(s[i], word[i]) <==> Lower(s)[i] == word[i] {
      SmallLetter(s[i], word[i]);
    }
    hide SameLetter;
  }

  /** Capitals are no white space either, so a spelling keeps the ends of the word. */
  lemma SpellingEnds(core: string, word: string)
    requires Plain(word) && SameLetters(core, word) && core != ""
    ensures core[0] !in SPACES && core[|core| - 1] !in SPACES
  {
    SmallLetter(core[0], word[0]);
    SmallLetter(core[|core| - 1], word[|word| - 1]);
  }

  lemma PaddedTrims(before: string, core: string, after: string)
    requires Blank(before) && Blank(after) && (core != "" ==> core[0] !in SPACES && core[|core| - 1] !in SPACES)
    ensures TrimSpace(before + core + after) == core
  {
    assert before + core + after == before + (core + after);
    TrimmedFront(before, core + after);
    TrimmedBack(core, after);
  }

  /** Trimming and lowering a text decides exactly which word it spells. */
  lemma SpellsExactly(text: string, word: string)
    requires Plain(word)
    ensures Spells(text, word) <==> Lower(TrimSpace(text)) == word
  {
    if Lower(TrimSpace(text)) == word {
      var before, after := TrimmedParts(text);
      SmallLetters(TrimSpace(text), word);
    }
    if Spells(text, word) {
      var before, core, after :|
        text == before + core + after && Blank(before) && Blank(after) && SameLetters(core, word);
      SmallLetters(core, word);
      if core != "" {
        SpellingEnds(core, word);
      }
      hide Blank, SameLetters, TrimSpace, Lower, Plain;
      PaddedTrims(before, core, after);
    }
  }
}
