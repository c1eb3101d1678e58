/** Searching and comparing text, as the HTTP code does. */
module TextSearch {
  import opened Basics
  import opened Letters

  const LINE_END := "\r\n"

  /** The first place, from a position on, that holds a pattern. */
  function FindFrom(s: string, p: string, i: nat): (r: Option<nat>)
    requires i <= |s|
    ensures r.Some? ==> i <= r.value && Holds(s, r.value, p) && forall k :: i <= k < r.value ==> !Holds(s, k, p)
    ensures r.None? ==> forall k :: i <= k ==> !Holds(s, k, p)
    decreases |s| - i
  {
    if Holds(s, i, p) then Some(i) else if i == |s| then None else FindFrom(s, p, i + 1)
  }

  function Find(s: string, p: string): (r: Option<nat>)
    ensures r.Some? ==> Holds(s, r.value, p) && forall k :: 0 <= k < r.value ==> !Holds(s, k, p)
    ensures r.None? ==> forall k: nat :: !Holds(s, k, p)
  {
    FindFrom(s, p, 0)
  }

  lemma FindIs(s: string, p: string, k: nat)
    requires Holds(s, k, p) && forall m :: 0 <= m < k ==> !Holds(s, m, p)
    ensures Find(s, p) == Some(k)
  {
  }

  lemma HoldsGrows(s: string, t: string, i: nat, p: string)
    ensures Holds(s, i, p) ==> Holds(s + t, i, p)
    ensures i + |p| <= |s| && Holds(s + t, i, p) ==> Holds(s, i, p)
  {
  }

  lemma HoldsBehind(front: string, rest: string, i: nat, p: string)
    ensures Holds(front + rest, |front| + i, p) <==> Holds(rest, i, p)
  {
  }

  lemma HoldsAt(s: string, i: nat, p: string, k: nat)
    requires k < |p|
    ensures Holds(s, i, p) ==> s[i + k] == p[k]
  {
  }

  /** What is found stays found, in the same place, when more text arrives. */
  lemma FindGrows(s: string, t: string, p: string)
    requires Find(s, p).Some?
    ensures Find(s + t, p) == Find(s, p)
  {
    var k := Find(s, p).value;
    HoldsGrows(s, t, k, p);
    forall m | 0 <= m < k ensures !Holds(s + t, m, p) { HoldsGrows(s, t, m, p); }
    FindIs(s + t, p, k);
  }

  predicate Blank(c: char) { c == ' ' || c == '\t' }

  function TrimFront(s: string): string {
    if s != "" && Blank(s[0]) then TrimFront(s[1..]) else s
  }

  function TrimBack(s: string): string {
    if s != "" && (Blank(s[|s| - 1]) || s[|s| - 1] == '\r') then TrimBack(s[..|s| - 1]) else s
  }

  function Trim(s: string): string { TrimBack(TrimFront(s)) }

  /** Up to the end of the line. */
  function Line(s: string): string {
    var end := Find(s, LINE_END);
    if end.None? then s else s[..end.value]
  }
}
