/** Subsets of at most nine things by number, as the solver enumerates them. */
module Combinations {
  import opened Pigeonhole

  /** The set bits of a number. */
  function Members(n: nat): set<int> {
    if n == 0 then {}
    else (if n % 2 == 1 then {0} else {}) + set x | x in Members(n / 2) :: x + 1
  }

  function Power(k: nat): nat {
    if k == 0 then 1 else 2 * Power(k - 1)
  }

  lemma {:induction false} MembersBelow(n: nat, k: nat)
    requires n < Power(k)
    ensures forall x :: x in Members(n) ==> 0 <= x < k
  {
    if n > 0 {
      MembersBelow(n / 2, k - 1);
    }
  }

  /** A subset without its lowest element, moved down by one. */
  function Lower(s: set<int>): set<int> {
    set x | x in s && x > 0 :: x - 1
  }

  lemma LowerRaised(s: set<int>)
    requires forall x :: x in s ==> 0 <= x
    ensures s == (if 0 in s then {0} else {}) + set x | x in Lower(s) :: x + 1
  {
    forall x | x in s && x > 0 ensures x in set y | y in Lower(s) :: y + 1 { assert x - 1 in Lower(s); }
  }

  /** Every subset has its number. */
  lemma {:induction false} NumberOf(s: set<int>, k: nat) returns (n: nat)
    requires forall x :: x in s ==> 0 <= x < k
    ensures n < Power(k) && Members(n) == s
    decreases k
  {
    hide Members;
    if k == 0 {
      n := 0;
      assert s == {} by { if s != {} { var x := Member(s); } }
      NoMembers();
    } else {
      var half := NumberOf(Lower(s), k - 1);
      var lowest := if 0 in s then 1 else 0;
      n := 2 * half + lowest;
      assert n / 2 == half && n % 2 == lowest;
      MembersSplit(n);
      LowerRaised(s);
    }
  }

  lemma NoMembers()
    ensures Members(0) == {}
  {
  }

  lemma MembersSplit(n: nat)
    ensures Members(n) == (if n % 2 == 1 then {0} else {}) + set x | x in Members(n / 2) :: x + 1
  {
  }

  lemma NineBits()
    ensures Power(9) == 512
  {
  }

  /** Everything the chosen rows of a table contain. */
  ghost function Union(table: seq<set<int>>, keys: set<int>): set<int> {
    set k, x | k in keys && 0 <= k < |table| && x in table[k] :: x
  }

  ghost function Joined(table: seq<set<int>>, keys: set<int>, n: nat): set<int>
    requires n <= |table|
  {
    set k, x | k in keys && 0 <= k < n && x in table[k] :: x
  }

  lemma JoinedOneMore(table: seq<set<int>>, keys: set<int>, n: nat)
    requires n < |table|
    ensures Joined(table, keys, n + 1) == Joined(table, keys, n) + if n in keys then table[n] else {}
  {
    if n in keys {
      assert forall x :: x in table[n] ==> x in Joined(table, keys, n + 1);
    }
  }

  /** Joins the chosen rows, stopping at an empty one. */
  method Join(table: seq<set<int>>, keys: set<int>) returns (valid: bool, union: set<int>)
    ensures valid <==> forall k :: 0 <= k < |table| && k in keys ==> table[k] != {}
    ensures valid ==> union == Union(table, keys)
  {
    valid, union := true, {};
    var i := 0;
    while i < |table| && valid
      invariant 0 <= i <= |table|
      invariant valid ==> forall k :: 0 <= k < i && k in keys ==> table[k] != {}
      invariant !valid ==> exists k :: 0 <= k < i && k in keys && table[k] == {}
      invariant union == Joined(table, keys, i)
    {
      if i in keys {
        valid := table[i] != {};
        union := union + table[i];
      }
      JoinedOneMore(table, keys, i);
      i := i + 1;
    }
  }
}
