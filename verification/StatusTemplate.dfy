/**
 Catalogue templates are written against the plain `value`; in a status object the value is
 `value_json.val`, so every bare `value` identifier is rewritten.
 */
module StatusTemplate {

  const IDENT := "value"
  const REPLACEMENT := "value_json.val"

  predicate IsWord(c: char) {
    c == '_' || c == '.' || '0' <= c <= '9' || 'a' <= c <= 'z' || 'A' <= c <= 'Z'
  }

  const DIGITS := {'0', '1', '2', '3', '4', '5', '6', '7', '8', '9'}
  const LETTERS :=
    {'a', 'b', 'c', 'd', 'e', 'f', 'g', 'h', 'i', 'j', 'k', 'l', 'm',
     'n', 'o', 'p', 'q', 'r', 's', 't', 'u', 'v', 'w', 'x', 'y', 'z'}
  const CAPITALS :=
    {'A', 'B', 'C', 'D', 'E', 'F', 'G', 'H', 'I', 'J', 'K', 'L', 'M',
     'N', 'O', 'P', 'Q', 'R', 'S', 'T', 'U', 'V', 'W', 'X', 'Y', 'Z'}

  /** The word characters, one by one. */
  lemma WordCharacters(c: char)
    ensures IsWord(c) <==> c == '_' || c == '.' || c in DIGITS || c in LETTERS || c in CAPITALS
  {
  }

  /** Where the run of word characters from place i on ends. */
  function RunEnd(t: string, i: nat): (e: nat)
    requires i <= |t|
    ensures i <= e <= |t|
    ensures forall k :: i <= k < e ==> IsWord(t[k])
    ensures e < |t| ==> !IsWord(t[e])
    decreases |t| - i
  {
    if i == |t| || !IsWord(t[i]) then i else RunEnd(t, i + 1)
  }

  /** Where the piece at place i ends: at the end of its run, or after one other character. */
  function PieceEnd(t: string, i: nat): (e: nat)
    requires i < |t|
    ensures i < e <= |t|
  {
    if IsWord(t[i]) then RunEnd(t, i) else i + 1
  }

  /** The text from place i on as its maximal runs of word characters and its other characters one by one. */
  function Pieces(t: string, i: nat): seq<string>
    requires i <= |t|
    decreases |t| - i
  {
    if i == |t| then [] else [t[i..PieceEnd(t, i)]] + Pieces(t, PieceEnd(t, i))
  }

  function Concat(pieces: seq<string>): string {
    if pieces == [] then "" else pieces[0] + Concat(pieces[1..])
  }

  function Replacement(piece: string): string {
    if piece == IDENT then REPLACEMENT else piece
  }

  function Replaced(pieces: seq<string>): seq<string> {
    seq(|pieces|, i requires 0 <= i < |pieces| => Replacement(pieces[i]))
  }

  /** The text with each run that is exactly the identifier replaced. */
  function Rewrite(t: string): string {
    Concat(Replaced(Pieces(t, 0)))
  }

  predicate IsRun(p: string) {
    p != "" && forall i :: 0 <= i < |p| ==> IsWord(p[i])
  }

  /** Runs and single other characters, no two runs side by side. */
  predicate WellFormed(pieces: seq<string>) {
    && (forall i :: 0 <= i < |pieces| ==> IsRun(pieces[i]) || (|pieces[i]| == 1 && !IsWord(pieces[i][0])))
    && (forall i :: 0 < i < |pieces| ==> !(IsRun(pieces[i - 1]) && IsRun(pieces[i])))
  }

  lemma {:induction false} PiecesPartition(t: string, i: nat)
    requires i <= |t|
    ensures Concat(Pieces(t, i)) == t[i..] && WellFormed(Pieces(t, i))
    ensures i < |t| ==> Pieces(t, i) != [] && (IsRun(Pieces(t, i)[0]) <==> IsWord(t[i]))
    decreases |t| - i
  {
    if i < |t| {
      var e := PieceEnd(t, i);
      PiecesPartition(t, e);
      var piece, rest := t[i..e], Pieces(t, e);
      hide RunEnd, Pieces, Concat;
      assert Pieces(t, i) == [piece] + rest by { PiecesUnfold(t, i); }
      assert piece[0] == t[i];
      assert ([piece] + rest)[1..] == rest;
      assert Concat([piece] + rest) == piece + Concat(rest) by { ConcatUnfold(piece, rest); }
      assert t[i..] == piece + t[e..];
    }
  }

  lemma PiecesUnfold(t: string, i: nat)
    requires i < |t|
    ensures Pieces(t, i) == [t[i..PieceEnd(t, i)]] + Pieces(t, PieceEnd(t, i))
  {
  }

  lemma ConcatUnfold(piece: string, rest: seq<string>)
    ensures Concat([piece] + rest) == piece + Concat(rest)
  {
    assert ([piece] + rest)[1..] == rest;
  }

  lemma RunEndIs(t: string, i: nat, e: nat)
    requires i <= e <= |t| && (forall k :: i <= k < e ==> IsWord(t[k])) && (e < |t| ==> !IsWord(t[e]))
    ensures RunEnd(t, i) == e
  {
  }

  /** What follows a run does not begin with a word character. */
  lemma RunIsPiece(before: string, p: string, after: string)
    requires IsRun(p) && (after != "" ==> !IsWord(after[0]))
    ensures PieceEnd(before + p + after, |before|) == |before + p|
  {
    var t := before + p + after;
    forall k | |before| <= k < |before + p| ensures IsWord(t[k]) {
      assert t[k] == p[k - |before|];
    }
    assert after != "" ==> t[|before + p|] == after[0];
    RunEndIs(t, |before|, |before + p|);
  }

  lemma PieceIsPiece(before: string, p: string, after: string)
    requires IsRun(p) || (|p| == 1 && !IsWord(p[0]))
    requires IsRun(p) && after != "" ==> !IsWord(after[0])
    ensures PieceEnd(before + p + after, |before|) == |before + p|
  {
    if IsRun(p) {
      RunIsPiece(before, p, after);
    } else {
      assert (before + p + after)[|before|] == p[0];
    }
  }

  lemma BeginsWithFirst(pieces: seq<string>)
    requires WellFormed(pieces) && pieces != []
    ensures Concat(pieces) != "" && Concat(pieces)[0] == pieces[0][0]
  {
    ConcatUnfold(pieces[0], pieces[1..]);
    assert pieces == [pieces[0]] + pieces[1..];
  }

  lemma RestIsWellFormed(pieces: seq<string>)
    requires WellFormed(pieces) && pieces != []
    ensures WellFormed(pieces[1..])
    ensures IsRun(pieces[0]) && Concat(pieces[1..]) != "" ==> !IsWord(Concat(pieces[1..])[0])
  {
    var rest := pieces[1..];
    forall i | 0 <= i < |rest| ensures rest[i] == pieces[i + 1] {
    }
    assert WellFormed(rest);
    if rest != [] {
      BeginsWithFirst(rest);
      assert rest[0] == pieces[1];
    }
  }

  /** There is only one way to cut a text like that. */
  lemma {:induction false} PiecesAreUnique(before: string, pieces: seq<string>)
    requires WellFormed(pieces)
    ensures Pieces(before + Concat(pieces), |before|) == pieces
    decreases |pieces|
  {
    if pieces != [] {
      var p, rest := pieces[0], pieces[1..];
      RestIsWellFormed(pieces);
      PieceIsPiece(before, p, Concat(rest));
      ConcatUnfold(p, rest);
      assert pieces == [p] + rest;
      hide Concat, WellFormed, IsRun, PieceEnd;
      PiecesAreUnique(before + p, rest);
      var t := before + p + Concat(rest);
      assert before + Concat(pieces) == t;
      PiecesUnfold(t, |before|);
      assert t[|before|..|before + p|] == p;
      hide Pieces;
    }
  }

  /** The rewritten text consists of the replaced pieces. */
  lemma PiecesOfRewrite(t: string)
    ensures Pieces(Rewrite(t), 0) == Replaced(Pieces(t, 0))
  {
    PiecesPartition(t, 0);
    var pieces := Pieces(t, 0);
    assert IsRun(IDENT) && IsRun(REPLACEMENT);
    forall i | 0 <= i < |pieces| ensures IsRun(Replaced(pieces)[i]) <==> IsRun(pieces[i]) {
    }
    PiecesAreUnique("", Replaced(pieces));
    assert "" + Rewrite(t) == Rewrite(t);
  }

  lemma RewriteIsIdempotent(t: string)
    ensures Rewrite(Rewrite(t)) == Rewrite(t)
  {
    PiecesOfRewrite(t);
    var pieces := Replaced(Pieces(t, 0));
    assert Replaced(pieces) == pieces;
  }

  /** The identifier stands on its own at place i. */
  predicate BareAt(t: string, i: nat) {
    var end := i + |IDENT|;
    end <= |t| && t[i..end] == IDENT && (i == 0 || !IsWord(t[i - 1])) && (end == |t| || !IsWord(t[end]))
  }

  lemma BareIsRun(t: string, i: nat)
    requires BareAt(t, i)
    ensures IsWord(t[i]) && RunEnd(t, i) == i + |IDENT|
  {
    var end := i + |IDENT|;
    forall k | i <= k < end ensures IsWord(t[k]) {
      assert t[k] == t[i..end][k - i];
    }
    RunEndIs(t, i, end);
  }

  lemma {:induction false} BareIsPiece(t: string, i: nat, from: nat)
    requires BareAt(t, i) && from <= i
    ensures IDENT in Pieces(t, from)
    decreases i - from
  {
    PiecesUnfold(t, from);
    if i == from {
      BareIsRun(t, i);
      assert Pieces(t, i)[0] == IDENT;
    } else {
      var e := PieceEnd(t, from);
      assert e <= i;
      BareIsPiece(t, i, e);
    }
  }

  /** No bare identifier is left. */
  lemma NoBareIdentifierLeft(t: string, i: nat)
    ensures !BareAt(Rewrite(t), i)
  {
    PiecesOfRewrite(t);
    if BareAt(Rewrite(t), i) {
      BareIsPiece(Rewrite(t), i, 0);
      assert false;
    }
  }

  ghost function RewriteFrom(t: string, i: nat): string
    requires i <= |t|
  {
    Concat(Replaced(Pieces(t, i)))
  }

  lemma RewriteStep(t: string, i: nat)
    requires i < |t|
    ensures RewriteFrom(t, i) == Replacement(t[i..PieceEnd(t, i)]) + RewriteFrom(t, PieceEnd(t, i))
  {
    var piece, rest := t[i..PieceEnd(t, i)], Pieces(t, PieceEnd(t, i));
    PiecesUnfold(t, i);
    assert Replaced([piece] + rest) == [Replacement(piece)] + Replaced(rest);
    ConcatUnfold(Replacement(piece), Replaced(rest));
  }

  /** What the rest of the text from place i on becomes: inside a run the rest of the run stays. */
  ghost function Pending(t: string, i: nat): string
    requires i <= |t|
  {
    if i > 0 && IsWord(t[i - 1]) then t[i..RunEnd(t, i)] + RewriteFrom(t, RunEnd(t, i)) else RewriteFrom(t, i)
  }

  lemma PendingAtIdentifier(t: string, i: nat)
    requires BareAt(t, i)
    ensures Pending(t, i) == REPLACEMENT + Pending(t, i + |IDENT|)
  {
    var end := i + |IDENT|;
    BareIsRun(t, i);
    RewriteStep(t, i);
    assert t[end - 1] == t[i..end][|IDENT| - 1];
    RunEndIs(t, end, end);
    hide RewriteFrom;
    assert t[end..end] + RewriteFrom(t, end) == RewriteFrom(t, end);
  }

  lemma PendingOther(t: string, i: nat)
    requires i < |t| && !IsWord(t[i])
    ensures Pending(t, i) == [t[i]] + Pending(t, i + 1)
  {
    RewriteStep(t, i);
    RunEndIs(t, i, i);
    hide RewriteFrom;
    assert t[i..i + 1] == [t[i]] && |[t[i]]| != |IDENT|;
    assert t[i..i] + RewriteFrom(t, i) == RewriteFrom(t, i);
  }

  /** A run that is not exactly the identifier stays, as does the rest of any run. */
  lemma RunStays(t: string, i: nat, e: nat)
    requires i < |t| && IsWord(t[i]) && !BareAt(t, i) && e == RunEnd(t, i)
    ensures Pending(t, i) == t[i..e] + RewriteFrom(t, e)
  {
    hide RewriteFrom, RunEnd, IsWord;
    if !(i > 0 && IsWord(t[i - 1])) {
      RewriteStep(t, i);
      assert t[i..e] == IDENT ==> e == i + |IDENT|;
    }
  }

  lemma PendingInRun(t: string, i: nat)
    requires i < |t| && IsWord(t[i]) && !BareAt(t, i)
    ensures Pending(t, i) == [t[i]] + Pending(t, i + 1)
  {
    var e := RunEnd(t, i);
    assert e == RunEnd(t, i + 1);
    hide RewriteFrom, RunEnd, BareAt, IsWord;
    RunStays(t, i, e);
    assert Pending(t, i + 1) == t[i + 1..e] + RewriteFrom(t, e);
    hide Pending;
    assert t[i..e] == [t[i]] + t[i + 1..e];
  }

  lemma PendingEnds(t: string)
    ensures Pending(t, 0) == Rewrite(t) && Pending(t, |t|) == ""
  {
    assert RewriteFrom(t, |t|) == "";
    assert t[|t|..|t|] + "" == "";
  }

  method StatusTemplate(t: string) returns (b: string)
    ensures b == Rewrite(t)
  {
    b := "";
    var i := 0;
    PendingEnds(t);
    hide Pending, Rewrite;
    while i < |t|
      invariant i <= |t|
      invariant b + Pending(t, i) == Rewrite(t)
    {
      if IDENT <= t[i..] && (i == 0 || !IsWord(t[i - 1])) && (i + |IDENT| == |t| || !IsWord(t[i + |IDENT|])) {
        PendingAtIdentifier(t, i);
        b := b + REPLACEMENT;
        i := i + |IDENT|;
        continue;
      }
      if IsWord(t[i]) {
        PendingInRun(t, i);
      } else {
        PendingOther(t, i);
      }
      b := b + [t[i]];
      i := i + 1;
    }
  }
}
