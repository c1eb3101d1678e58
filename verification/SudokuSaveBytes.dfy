/** The saved game byte by byte. */
module SaveBytes {
  import opened Cells
  import opened Solutions
  import opened Combinations
  import opened Rater
  import opened Marks
  import opened GameRules
  import opened GameInvariant
  import opened SaveFormat
  import opened SaveRoundTrip

  const BITS: seq<nat> := [1, 2, 4, 8, 16, 32, 64, 128, 256]

  /** Two bytes, the low one first. */
  function Word(b: seq<byte>, at: nat): nat
    requires at + 2 <= |b|
  {
    b[at] as int + 256 * b[at + 1] as int
  }

  function Long(b: seq<byte>, at: nat): nat
    requires at + 4 <= |b|
  {
    b[at] as int + 256 * b[at + 1] as int + 65536 * b[at + 2] as int + 16777216 * b[at + 3] as int
  }

  /** Notes as bits: the lowest for a one, up to the ninth for a nine. */
  ghost predicate NotesAre(bits: nat, notes: set<int>) {
    bits < 512 && forall d :: d in notes <==> 1 <= d <= 9 && bits / BITS[d - 1] % 2 == 1
  }

  ghost predicate ChangeIs(b: seq<byte>, at: nat, change: Change)
    requires at + 4 <= |b|
  {
    b[at] == change.cell && b[at + 1] == change.value && NotesAre(Word(b, at + 2), change.notes)
  }

  /** The bytes are those of the game. */
  ghost predicate IsSave(b: seq<byte>, g: Fields) {
    && |b| == 433 + 2 * |g.moves| + 4 * |g.changes|
    && b[0] == 'S' as int && b[1] == 'D' as int && b[2] == 'K' as int && b[3] == 'U' as int
    && b[4] == 1 && b[5] == 0 && b[6] == 0 && b[7] == 0
    && (forall c: Cell :: b[8 + c] == g.puzzle.givens[c])
    && (forall c: Cell :: b[89 + c] == g.puzzle.solution[c])
    && (forall c: Cell :: b[170 + c] == g.board.values[c])
    && (forall c: Cell :: NotesAre(Word(b, 251 + 2 * c), g.board.notes[c]))
    && b[413] == (if g.selected < 0 then g.selected + 256 else g.selected) && b[414] == g.mistakes
    && b[415] == (if g.notesMode then 1 else 0) && b[416] == 0 && b[417..425] == g.elapsed
    && Long(b, 425) == |g.moves| && Long(b, 429) == |g.changes|
    && (forall i :: 0 <= i < |g.moves| ==> Word(b, 433 + 2 * i) == g.moves[i])
    && forall i :: 0 <= i < |g.changes| ==> ChangeIs(b, 433 + 2 * |g.moves| + 4 * i, g.changes[i])
  }

  function Bit(x: nat): (p: nat)
    ensures p > 0
  {
    if x == 0 then 1 else 2 * Bit(x - 1)
  }

  lemma {:induction false} BitIs(n: nat, x: nat)
    ensures x in Members(n) <==> n / Bit(x) % 2 == 1
    decreases x
  {
    hide Members;
    if n == 0 {
      NoMembers();
      assert 0 / Bit(x) == 0;
    } else {
      MembersSplit(n);
      MembersNatural(n / 2);
      if x > 0 {
        BitIs(n / 2, x - 1);
        DivideTwice(n, Bit(x - 1));
        assert x in Members(n) <==> x - 1 in Members(n / 2);
      }
    }
  }

  lemma DivideTwice(n: nat, p: nat)
    requires p > 0
    ensures n / 2 / p == n / (2 * p)
  {
    var q := n / 2 / p;
    var r := n / 2 - q * p;
    assert n / 2 == q * p + r && 0 <= r < p by { assert n / 2 / p * p <= n / 2; }
    assert n == (2 * p) * q + (2 * r + n % 2);
    assert 0 <= 2 * r + n % 2 < 2 * p;
    QuotientIs(n, 2 * p, q, 2 * r + n % 2);
  }

  lemma SmallMultiple(p: int, d: int, e: int)
    requires p > 0 && p * d == e && -p < e < p
    ensures d == 0
  {
    assert d >= 1 ==> p * d >= p;
    assert d <= -1 ==> p * d <= -p;
  }

  lemma QuotientIs(n: nat, p: nat, q: nat, r: nat)
    requires p > 0 && r < p && n == p * q + r
    ensures n / p == q
  {
    var k, e := n / p, n % p;
    assert n == p * k + e;
    assert p * (k - q) == r - e by { assert p * (k - q) == p * k - p * q; }
    SmallMultiple(p, k - q, r - e);
  }

  lemma BitsAre(d: Digit)
    ensures Bit(d - 1) == BITS[d - 1]
  {
  }

  /** What the reader makes of nine bits. */
  lemma NotesSpelled(bits: nat)
    requires bits < 512
    ensures NotesAre(bits, NotesOf(bits))
  {
    hide Members, Bit;
    var notes := NotesOf(bits);
    NotesInRange(bits);
    forall d ensures d in notes <==> 1 <= d <= 9 && bits / BITS[d - 1] % 2 == 1 {
      if 1 <= d <= 9 {
        BitIs(bits, d - 1);
        BitsAre(d);
        assert d in notes <==> d - 1 in Members(bits);
      }
    }
  }

  lemma NotesInRange(bits: nat)
    requires bits < 512
    ensures NotesOf(bits) <= Digits()
  {
    BitsRoundTrip(bits);
  }

  lemma MagicIs(b: seq<byte>)
    requires |b| >= 8 && Get32(b, 0) == MAGIC && Get32(b, 4) == VERSION
    ensures b[0] == 'S' as int && b[1] == 'D' as int && b[2] == 'K' as int && b[3] == 'U' as int
    ensures b[4] == 1 && b[5] == 0 && b[6] == 0 && b[7] == 0
  {
  }

  lemma LongIs(b: seq<byte>, at: nat)
    requires at + 4 <= |b|
    ensures Long(b, at) == Get32(b, at)
  {
  }

  /** What is read from bytes is what they spell. */
  lemma ReadIsSpelled(b: seq<byte>)
    requires Readable(b)
    ensures IsSave(b, Read(b))
  {
    hide NotesAre, NotesOf, MAGIC, VERSION;
    MagicIs(b);
    LongIs(b, 425);
    LongIs(b, 429);
    hide Get32, Long;
    var g := Read(b);
    forall c: Cell ensures NotesAre(Word(b, 251 + 2 * c), g.board.notes[c]) { NotesSpelled(Word(b, 251 + 2 * c)); }
    var m, n := Get32(b, 425), Get32(b, 429);
    forall i | 0 <= i < n ensures ChangeIs(b, 433 + 2 * m + 4 * i, g.changes[i]) {
      assert GoodChange(b, 433 + 2 * m + 4 * i);
      NotesSpelled(Word(b, 433 + 2 * m + 4 * i + 2));
    }
  }

  /** What is written spells the game. */
  lemma SaveIsSpelled(g: Fields)
    requires Savable(g)
    ensures Fits8(g) && IsSave(Encode(g), g)
  {
    hide IsSave, Read, Readable, Savable, Encode, Fits8;
    PlayableFits(g) by { SavableIsPlayable(g); }
    ReadEncode(g);
    ReadIsSpelled(Encode(g));
  }

  lemma SavableIsPlayable(g: Fields)
    requires Savable(g)
    ensures Playable(g)
  {
  }

  /** The log's moves, each of one or more changes that follow those of the moves before. */
  ghost predicate Splits(sizes: seq<nat>, n: nat) {
    exists starts: seq<nat> :: StartsAt(starts, sizes, n)
  }

  ghost predicate StartsAt(starts: seq<nat>, sizes: seq<nat>, n: nat) {
    && |starts| == |sizes| + 1 && starts[0] == 0 && starts[|sizes|] == n
    && forall i :: 0 <= i < |sizes| ==> sizes[i] > 0 && starts[i + 1] == starts[i] + sizes[i]
  }

  predicate Agrees(s: Grid, givens: Grid) { forall c: Cell :: givens[c] != 0 ==> s[c] == givens[c] }

  /** What a saved game must satisfy to be accepted. */
  ghost predicate IsAcceptable(g: Fields) {
    && IsSolution(g.puzzle.solution)
    && (forall s: Grid :: IsSolution(s) ==> (Agrees(s, g.puzzle.givens) <==> s == g.puzzle.solution))
    && (forall c: Cell :: g.board.values[c] <= 9 && forall d :: d in g.board.notes[c] ==> 1 <= d <= 9)
    && (forall c: Cell :: g.puzzle.givens[c] != 0 ==> g.board.values[c] == g.puzzle.givens[c])
    && -1 <= g.selected <= 80 && g.mistakes <= 3 && ValidElapsed(g.elapsed)
    && |g.moves| <= 2001 && |g.changes| <= 2001 * 81 && Splits(g.moves, |g.changes|)
    && (forall i :: 0 <= i < |g.moves| ==> g.moves[i] < 65536)
    && forall i :: 0 <= i < |g.changes| ==> var change := g.changes[i];
         g.puzzle.givens[change.cell] == 0 && change.value <= 9 && forall d :: d in change.notes ==> 1 <= d <= 9
  }

  lemma {:induction false} TotalSplits(sizes: seq<nat>) returns (starts: seq<nat>)
    requires forall i :: 0 <= i < |sizes| ==> sizes[i] > 0
    ensures StartsAt(starts, sizes, Total(sizes))
  {
    if sizes == [] {
      starts := [0];
    } else {
      var n := |sizes| - 1;
      var before := TotalSplits(sizes[..n]);
      starts := before + [before[n] + sizes[n]];
      forall i | 0 <= i < |sizes| ensures starts[i + 1] == starts[i] + sizes[i] {
        if i < n { assert starts[i + 1] == before[i + 1] && starts[i] == before[i] && sizes[..n][i] == sizes[i]; }
      }
    }
  }

  lemma {:induction false} SplitsTotal(starts: seq<nat>, sizes: seq<nat>, n: nat)
    requires StartsAt(starts, sizes, n)
    ensures Total(sizes) == n
    decreases |sizes|
  {
    if sizes != [] {
      var k := |sizes| - 1;
      SplitsTotal(starts[..k + 1], sizes[..k], starts[k]);
    }
  }

  lemma LogSplits(g: Fields)
    ensures LogFits(g.changes, g.moves) <==> Splits(g.moves, |g.changes|)
  {
    if LogFits(g.changes, g.moves) { var starts := TotalSplits(g.moves); }
    if Splits(g.moves, |g.changes|) {
      var starts :| StartsAt(starts, g.moves, |g.changes|);
      SplitsTotal(starts, g.moves, |g.changes|);
    }
  }

  lemma NotesInDigits(notes: set<int>)
    ensures notes <= Digits() <==> forall d :: d in notes ==> 1 <= d <= 9
  {
  }

  lemma PuzzleIs(p: Puzzle)
    ensures ValidPuzzle(p) <==>
      IsSolution(p.solution) && forall s: Grid :: IsSolution(s) ==> (Agrees(s, p.givens) <==> s == p.solution)
  {
    hide IsSolution;
    if ValidPuzzle(p) {
      forall s: Grid | IsSolution(s) ensures Agrees(s, p.givens) <==> s == p.solution {
        assert Completes(p.givens, s) <==> s in Completions(p.givens);
        assert p.solution in Completions(p.givens);
      }
    }
    if IsSolution(p.solution) && forall s: Grid :: IsSolution(s) ==> (Agrees(s, p.givens) <==> s == p.solution) {
      assert Agrees(p.solution, p.givens);
      forall s | s in Completions(p.givens) ensures s == p.solution { SolutionIsGrid(s); }
      assert Completes(p.givens, p.solution);
      assert Completions(p.givens) == {p.solution};
    }
  }

  lemma SolutionIsGrid(s: seq<nat>)
    requires IsSolution(s)
    ensures |s| == 81
  {
  }

  /** The reader accepts the bytes of exactly these games. */
  lemma AcceptableExactly(g: Fields)
    ensures Savable(g) <==> IsAcceptable(g)
  {
    hide IsSolution, ValidPuzzle, LogFits, Splits, ValidElapsed, Agrees, Digits;
    PuzzleIs(g.puzzle);
    LogSplits(g);
    forall c: Cell { NotesInDigits(g.board.notes[c]); }
    forall i | 0 <= i < |g.changes| { NotesInDigits(g.changes[i].notes); }
  }

  lemma SameBits(a: nat, b: nat, notes: set<int>)
    requires NotesAre(a, notes) && NotesAre(b, notes)
    ensures a == b
  {
    NotesSpelled(a);
    NotesSpelled(b);
    forall d ensures d in NotesOf(a) <==> d in notes { }
    forall d ensures d in NotesOf(b) <==> d in notes { }
    assert NotesOf(a) == NotesOf(b);
    hide NotesOf;
    BitsRoundTrip(a);
    BitsRoundTrip(b);
  }

  lemma SameWord(a: seq<byte>, b: seq<byte>, at: nat)
    requires at + 2 <= |a| == |b| && Word(a, at) == Word(b, at)
    ensures a[at] == b[at] && a[at + 1] == b[at + 1]
  {
  }

  lemma SameLong(a: seq<byte>, b: seq<byte>, at: nat)
    requires at + 4 <= |a| == |b| && Long(a, at) == Long(b, at)
    ensures a[at] == b[at] && a[at + 1] == b[at + 1] && a[at + 2] == b[at + 2] && a[at + 3] == b[at + 3]
  {
    SameFour(a[at] as int, a[at + 1] as int, a[at + 2] as int, a[at + 3] as int,
      b[at] as int, b[at + 1] as int, b[at + 2] as int, b[at + 3] as int);
  }

  lemma SameFour(a: int, b: int, c: int, d: int, p: int, q: int, r: int, s: int)
    requires 0 <= a < 256 && 0 <= b < 256 && 0 <= c < 256 && 0 <= p < 256 && 0 <= q < 256 && 0 <= r < 256
    requires a + 256 * b + 65536 * c + 16777216 * d == p + 256 * q + 65536 * r + 16777216 * s
    ensures a == p && b == q && c == r && d == s
  {
    var x, y := b + 256 * c + 65536 * d, q + 256 * r + 65536 * s;
    assert a + 256 * x == p + 256 * y;
    assert x == y && a == p;
    assert b + 256 * (c + 256 * d) == q + 256 * (r + 256 * s);
  }

  lemma SameHead(a: seq<byte>, b: seq<byte>, g: Fields, i: nat)
    requires IsSave(a, g) && IsSave(b, g) && i < 433
    ensures a[i] == b[i]
  {
    hide NotesAre, ChangeIs;
    if 8 <= i < 89 { var c: Cell := i - 8; assert a[8 + c] == g.puzzle.givens[c] == b[8 + c]; }
    else if 89 <= i < 170 { var c: Cell := i - 89; assert a[89 + c] == g.puzzle.solution[c] == b[89 + c]; }
    else if 170 <= i < 251 { var c: Cell := i - 170; assert a[170 + c] == g.board.values[c] == b[170 + c]; }
    else if 251 <= i < 413 {
      var c: Cell := (i - 251) / 2;
      SameBits(Word(a, 251 + 2 * c), Word(b, 251 + 2 * c), g.board.notes[c]);
      SameWord(a, b, 251 + 2 * c);
    } else if 417 <= i < 425 {
      assert a[417..425][i - 417] == b[417..425][i - 417];
    } else if 425 <= i {
      SameLong(a, b, 425);
      SameLong(a, b, 429);
    }
  }

  lemma SameLog(a: seq<byte>, b: seq<byte>, g: Fields, i: nat)
    requires IsSave(a, g) && IsSave(b, g) && 433 <= i < |a|
    ensures a[i] == b[i]
  {
    hide NotesAre;
    var m := |g.moves|;
    if i < 433 + 2 * m {
      var k := (i - 433) / 2;
      assert Word(a, 433 + 2 * k) == g.moves[k] == Word(b, 433 + 2 * k);
      SameWord(a, b, 433 + 2 * k);
    } else {
      var k := (i - 433 - 2 * m) / 4;
      var at := 433 + 2 * m + 4 * k;
      assert ChangeIs(a, at, g.changes[k]) && ChangeIs(b, at, g.changes[k]);
      SameBits(Word(a, at + 2), Word(b, at + 2), g.changes[k].notes);
      SameWord(a, b, at + 2);
    }
  }

  /** Bytes that spell an acceptable game are what is written for it, and are read as it. */
  lemma SpelledIsRead(b: seq<byte>, g: Fields)
    requires IsSave(b, g) && IsAcceptable(g)
    ensures Fits8(g) && b == Encode(g) && Readable(b) && Read(b) == g
  {
    hide IsAcceptable, Savable, Encode, Readable, Read, Fits8;
    AcceptableExactly(g);
    SaveIsSpelled(g);
    var a := Encode(g);
    ReadEncode(g);
    assert |a| == |b|;
    hide IsSave;
    forall i | 0 <= i < |a| ensures a[i] == b[i] {
      if i < 433 { SameHead(a, b, g, i); } else { SameLog(a, b, g, i); }
    }
  }
}
