/** The saved game: its bytes, and reading them back. */
module SaveFormat {
  import opened Pigeonhole
  import opened Cells
  import opened Solutions
  import opened Marks
  import opened Combinations
  import opened Rater
  import opened GameRules
  import opened GameInvariant
  import S = Subsets

  type byte = b: int | 0 <= b < 256

  const MAGIC := 0x554b4453
  const VERSION := 1

  /** Little-endian integers. */
  function U16(n: nat): (r: seq<byte>)
    ensures |r| == 2
  {
    [n % 256, n / 256 % 256]
  }

  function U32(n: nat): (r: seq<byte>)
    ensures |r| == 4
  {
    U16(n % 65536) + U16(n / 65536)
  }

  function Get16(b: seq<byte>, at: nat): nat
    requires at + 2 <= |b|
  {
    b[at] as int + 256 * b[at + 1] as int
  }

  function Get32(b: seq<byte>, at: nat): nat
    requires at + 4 <= |b|
  {
    Get16(b, at) + 65536 * Get16(b, at + 2)
  }

  lemma U16RoundTrip(n: nat)
    requires n < 65536
    ensures Get16(U16(n), 0) == n
  {
  }

  lemma Get16RoundTrip(b: seq<byte>, at: nat)
    requires at + 2 <= |b|
    ensures Get16(b, at) < 65536 && U16(Get16(b, at)) == b[at..at + 2]
  {
  }

  lemma U32RoundTrip(n: nat)
    requires n < 65536 * 65536
    ensures Get32(U32(n), 0) == n
  {
  }

  lemma Get32RoundTrip(b: seq<byte>, at: nat)
    requires at + 4 <= |b|
    ensures Get32(b, at) < 65536 * 65536 && U32(Get32(b, at)) == b[at..at + 4]
  {
    Get16RoundTrip(b, at);
    Get16RoundTrip(b, at + 2);
    var low, high := Get16(b, at), Get16(b, at + 2);
    assert (low + 65536 * high) % 65536 == low && (low + 65536 * high) / 65536 == high;
    assert b[at..at + 4] == b[at..at + 2] + b[at + 2..at + 4];
  }

  lemma GetAt(b: seq<byte>, at: nat, part: seq<byte>)
    requires at + |part| <= |b| && b[at..at + |part|] == part
    ensures |part| == 2 ==> Get16(b, at) == Get16(part, 0)
    ensures |part| == 4 ==> Get32(b, at) == Get32(part, 0)
  {
  }

  /** A set of bits as a number. */
  function Code(bits: set<int>, k: nat): nat
    decreases k
  {
    if k == 0 then 0 else 2 * Code(Lower(bits), k - 1) + if 0 in bits then 1 else 0
  }

  lemma {:induction false} CodeMembers(bits: set<int>, k: nat)
    requires forall x :: x in bits ==> 0 <= x < k
    ensures Code(bits, k) < Power(k) && Members(Code(bits, k)) == bits
    decreases k
  {
    hide Members;
    if k == 0 {
      assert bits == {} by { if bits != {} { var x := Member(bits); } }
      NoMembers();
    } else {
      CodeMembers(Lower(bits), k - 1);
      var n, half, lowest := Code(bits, k), Code(Lower(bits), k - 1), if 0 in bits then 1 else 0;
      assert n / 2 == half && n % 2 == lowest;
      MembersSplit(n);
      LowerRaised(bits);
    }
  }

  lemma {:induction false} MembersCode(n: nat, k: nat)
    requires n < Power(k)
    ensures Code(Members(n), k) == n
    decreases k
  {
    hide Members;
    if k > 0 {
      MembersSplit(n);
      assert Lower(Members(n)) == Members(n / 2) by { LowerOfRaised(Members(n / 2), n % 2 == 1, n / 2); }
      assert 0 in Members(n) <==> n % 2 == 1 by { MembersNatural(n / 2); }
      MembersCode(n / 2, k - 1);
    }
  }

  lemma {:induction false} MembersNatural(n: nat)
    ensures forall x :: x in Members(n) ==> x >= 0
  {
    if n > 0 { MembersNatural(n / 2); }
  }

  lemma LowerOfRaised(s: set<int>, lowest: bool, n: nat)
    requires s == Members(n)
    ensures Lower((if lowest then {0} else {}) + set x | x in s :: x + 1) == s
  {
    hide Members;
    MembersNatural(n);
    var raised := (if lowest then {0} else {}) + set x | x in s :: x + 1;
    forall x | x in s ensures x in Lower(raised) { assert x + 1 in raised; }
  }

  /** Pencil marks as the nine low bits of a number. */
  function NoteBits(notes: set<int>): nat {
    Code(Lower(notes), |NINE|)
  }

  function NotesOf(bits: nat): set<int> {
    S.Digit1(Members(bits))
  }

  const NINE: seq<int> := [0, 0, 0, 0, 0, 0, 0, 0, 0]

  lemma NotesRoundTrip(notes: set<int>)
    requires notes <= Digits()
    ensures NoteBits(notes) < 512 && NotesOf(NoteBits(notes)) == notes
  {
    S.BitsOfDigits(notes);
    CodeMembers(Lower(notes), |NINE|);
    NineBits();
  }

  lemma BitsRoundTrip(bits: nat)
    requires bits < 512
    ensures NotesOf(bits) <= Digits() && NoteBits(NotesOf(bits)) == bits
  {
    hide Members;
    NineBits();
    MembersBelow(bits, |NINE|);
    var m := Members(bits);
    S.DigitsOfBits(m);
    assert Lower(S.Digit1(m)) == m by {
      forall x | x in m ensures x in Lower(S.Digit1(m)) { assert x + 1 in S.Digit1(m); }
    }
    MembersCode(bits, |NINE|);
  }

  /** Fixed-size records in a row. */
  function Bytes(g: Grid): (r: seq<byte>)
    requires forall c: Cell :: g[c] < 256
    ensures |r| == 81
  {
    seq(81, c requires 0 <= c < 81 => g[c])
  }

  function NoteBytes(notes: seq<set<int>>): (r: seq<byte>)
    ensures |r| == 2 * |notes|
  {
    if notes == [] then [] else NoteBytes(notes[..|notes| - 1]) + U16(NoteBits(notes[|notes| - 1]) % 65536)
  }

  function MoveBytes(moves: seq<nat>): (r: seq<byte>)
    ensures |r| == 2 * |moves|
  {
    if moves == [] then [] else MoveBytes(moves[..|moves| - 1]) + U16(moves[|moves| - 1] % 65536)
  }

  function ChangeRecord(c: Change): (r: seq<byte>)
    ensures |r| == 4
  {
    [c.cell, c.value % 256] + U16(NoteBits(c.notes) % 65536)
  }

  function ChangeBytes(changes: seq<Change>): (r: seq<byte>)
    ensures |r| == 4 * |changes|
  {
    if changes == [] then [] else ChangeBytes(changes[..|changes| - 1]) + ChangeRecord(changes[|changes| - 1])
  }

  /** A selection as a signed byte. */
  function Signed(selected: int): byte { selected % 256 }

  function Unsigned(b: byte): int { if b < 128 then b else b - 256 }

  /** What a save may hold: a playable game whose bytes fit and whose log is within the reader's limit. */
  ghost predicate Savable(g: Fields) {
    Playable(g) && |g.changes| <= MAXIMUM_CHANGES
  }

  predicate Fits8(g: Fields) {
    && (forall c: Cell :: g.puzzle.givens[c] < 256 && g.puzzle.solution[c] < 256 && g.board.values[c] < 256)
    && |g.elapsed| == 8 && forall i :: 0 <= i < 8 ==> 0 <= g.elapsed[i] < 256
  }

  lemma PlayableFits(g: Fields)
    requires Playable(g)
    ensures Fits8(g)
  {
  }

  /** The four parts of the fixed header. */
  function Grids(g: Fields): (r: seq<byte>)
    requires Fits8(g)
    ensures |r| == 243
  {
    Bytes(g.puzzle.givens) + Bytes(g.puzzle.solution) + Bytes(g.board.values)
  }

  function Flags(g: Fields): (r: seq<byte>)
    requires Fits8(g)
    ensures |r| == 12
  {
    [Signed(g.selected), g.mistakes % 256, if g.notesMode then 1 else 0, 0] + g.elapsed
  }

  function Counts(g: Fields): (r: seq<byte>)
    ensures |r| == 8
  {
    U32(|g.moves| % 4294967296) + U32(|g.changes| % 4294967296)
  }

  function Header(g: Fields): (r: seq<byte>)
    requires Fits8(g)
    ensures |r| == 433
  {
    U32(MAGIC) + U32(VERSION) + Grids(g) + NoteBytes(g.board.notes) + Flags(g) + Counts(g)
  }

  function Encode(g: Fields): (r: seq<byte>)
    requires Fits8(g)
    ensures |r| == 433 + 2 * |g.moves| + 4 * |g.changes|
  {
    Header(g) + MoveBytes(g.moves) + ChangeBytes(g.changes)
  }

  /** A grid stored at an offset. */
  function GridAt(b: seq<byte>, at: nat): Grid
    requires at + 81 <= |b|
  {
    seq(81, c requires 0 <= c < 81 => b[at + c] as nat)
  }

  function MasksAt(b: seq<byte>, at: nat): Masks
    requires at + 162 <= |b|
  {
    seq(81, c requires 0 <= c < 81 => NotesOf(Get16(b, at + 2 * c)))
  }

  function MovesAt(b: seq<byte>, at: nat, n: nat): seq<nat>
    requires at + 2 * n <= |b|
  {
    seq(n, i requires 0 <= i < n => Get16(b, at + 2 * i))
  }

  predicate GoodChange(b: seq<byte>, at: nat)
    requires at + 4 <= |b|
  {
    b[at] < 81 && b[at + 1] <= 9 && Get16(b, at + 2) < 512
  }

  function ChangeAt(b: seq<byte>, at: nat): Change
    requires at + 4 <= |b| && GoodChange(b, at)
  {
    Change(b[at], b[at + 1], NotesOf(Get16(b, at + 2)))
  }

  ghost predicate GoodChanges(b: seq<byte>, at: nat, n: nat)
    requires at + 4 * n <= |b|
  {
    forall i :: 0 <= i < n ==> GoodChange(b, at + 4 * i)
  }

  function ChangesAt(b: seq<byte>, at: nat, n: nat): seq<Change>
    requires at + 4 * n <= |b| && GoodChanges(b, at, n)
  {
    seq(n, i requires 0 <= i < n => ChangeAt(b, at + 4 * i))
  }

  ghost predicate GoodMasks(b: seq<byte>, at: nat)
    requires at + 162 <= |b|
  {
    forall c: Cell :: Get16(b, at + 2 * c) < 512
  }

  /** The game some bytes hold, wherever the reader's range checks pass. */
  ghost predicate Readable(b: seq<byte>) {
    && |b| >= 433
    && Get32(b, 0) == MAGIC && Get32(b, 4) == VERSION
    && GoodMasks(b, 251) && b[415] <= 1 && b[416] == 0
    && |b| == 433 + 2 * Get32(b, 425) + 4 * Get32(b, 429)
    && GoodChanges(b, 433 + 2 * Get32(b, 425), Get32(b, 429))
  }

  ghost function Read(b: seq<byte>): Fields
    requires Readable(b)
  {
    var m, n := Get32(b, 425), Get32(b, 429);
    Fields(Puzzle(GridAt(b, 8), GridAt(b, 89)), Board(GridAt(b, 170), MasksAt(b, 251)),
           Unsigned(b[413]), b[414], b[415] == 1, b[417..425], ChangesAt(b, 433 + 2 * m, n), MovesAt(b, 433, m))
  }
}
