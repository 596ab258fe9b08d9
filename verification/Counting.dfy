/**
  Counting the elements of a sequence, and splitting a count over groups.
 */
module Counting {
  import opened Mail

  function Count<T>(s: seq<T>, p: T -> bool): nat {
    if s == [] then 0 else Count(s[..|s| - 1], p) + (if p(s[|s| - 1]) then 1 else 0)
  }

  lemma {:induction false} CountAppend<T>(s: seq<T>, x: T, p: T -> bool)
    ensures Count(s + [x], p) == Count(s, p) + (if p(x) then 1 else 0)
  {
    assert (s + [x])[..|s|] == s;
  }

  /** If exactly one of `a` and `b` holds where `p` does, and none elsewhere, the counts add up. */
  lemma {:induction false} CountSplit<T>(s: seq<T>, p: T -> bool, a: T -> bool, b: T -> bool)
    requires forall x :: x in s ==> p(x) == (a(x) || b(x)) && !(a(x) && b(x))
    ensures Count(s, a) + Count(s, b) == Count(s, p)
  {
    if s != [] {
      assert s[|s| - 1] in s;
      CountSplit(s[..|s| - 1], p, a, b);
    }
  }

  /** Counting position by position in two sequences that agree on what is counted. */
  lemma {:induction false} CountAligned<T, U>(s: seq<T>, p: T -> bool, t: seq<U>, q: U -> bool)
    requires |s| == |t| && forall i :: 0 <= i < |s| ==> p(s[i]) == q(t[i])
    ensures Count(s, p) == Count(t, q)
  {
    if s != [] { CountAligned(s[..|s| - 1], p, t[..|t| - 1], q); }
  }

  function SumOver(ls: seq<string>, f: string -> nat): nat {
    if ls == [] then 0 else SumOver(ls[..|ls| - 1], f) + f(ls[|ls| - 1])
  }

  lemma {:induction false} SumEqual(ls: seq<string>, f: string -> nat, g: string -> nat)
    requires forall l :: l in ls ==> f(l) == g(l)
    ensures SumOver(ls, f) == SumOver(ls, g)
  {
    if ls != [] { SumEqual(ls[..|ls| - 1], f, g); }
  }

  /** One summand raised by one raises the sum by one. */
  lemma {:induction false} SumBump(ls: seq<string>, f: string -> nat, g: string -> nat, at: string)
    requires Distinct(ls)
    requires forall l :: l in ls ==> g(l) == f(l) + (if l == at then 1 else 0)
    ensures SumOver(ls, g) == SumOver(ls, f) + (if at in ls then 1 else 0)
  {
    if ls != [] {
      var init, last := ls[..|ls| - 1], ls[|ls| - 1];
      assert forall l :: l in ls <==> l in init || l == last;
      assert last !in init;
      SumBump(init, f, g, at);
    }
  }

  /** The elements of group `l` that satisfy `p`. */
  function InGroup<T>(s: seq<T>, group: T -> string, p: T -> bool, l: string): nat {
    Count(s, x => group(x) == l && p(x))
  }

  lemma {:induction false} GroupAligned<T, U>(s: seq<T>, group: T -> string, p: T -> bool, l: string, t: seq<U>,
                                              q: U -> bool)
    requires |s| == |t| && forall i :: 0 <= i < |s| ==> (group(s[i]) == l && p(s[i])) == q(t[i])
    ensures InGroup(s, group, p, l) == Count(t, q)
  {
    CountAligned(s, x => group(x) == l && p(x), t, q);
  }

  lemma {:induction false} GroupSplit<T>(s: seq<T>, group: T -> string, p: T -> bool, a: T -> bool, b: T -> bool,
                                         l: string)
    requires forall x :: x in s ==> p(x) == (a(x) || b(x)) && !(a(x) && b(x))
    ensures InGroup(s, group, a, l) + InGroup(s, group, b, l) == InGroup(s, group, p, l)
  {
    CountSplit(s, x => group(x) == l && p(x), x => group(x) == l && a(x), x => group(x) == l && b(x));
  }

  /** Counts per group add up to the whole count when the groups cover all that is counted. */
  lemma {:induction false} GroupsAddUp<T>(s: seq<T>, group: T -> string, p: T -> bool, ls: seq<string>)
    requires Distinct(ls) && forall x :: x in s && p(x) ==> group(x) in ls
    ensures SumOver(ls, l => InGroup(s, group, p, l)) == Count(s, p)
  {
    if s == [] {
      SumEqual(ls, l => InGroup(s, group, p, l), _ => 0);
      SumZero(ls);
    } else {
      var init, x := s[..|s| - 1], s[|s| - 1];
      GroupsAddUp(init, group, p, ls);
      if p(x) {
        SumBump(ls, l => InGroup(init, group, p, l), l => InGroup(s, group, p, l), group(x));
      } else {
        SumEqual(ls, l => InGroup(init, group, p, l), l => InGroup(s, group, p, l));
      }
    }
  }

  lemma {:induction false} SumZero(ls: seq<string>)
    ensures SumOver(ls, _ => 0) == 0
  {
    if ls != [] { SumZero(ls[..|ls| - 1]); }
  }

  function SetOf<T>(s: seq<T>): set<T> {
    set x | x in s
  }

  /** Without duplicates, counting members of a set is intersecting with it. */
  lemma {:induction false} CountMembers<T>(s: seq<T>, k: set<T>, p: T -> bool)
    requires Distinct(s) && forall x :: x in s ==> p(x) == (x in k)
    ensures Count(s, p) == |SetOf(s) * k|
  {
    if s != [] {
      var init, last := s[..|s| - 1], s[|s| - 1];
      CountMembers(init, k, p);
      assert last !in init;
      assert s == init + [last];
      if last in k {
        assert SetOf(s) * k == SetOf(init) * k + {last};
      } else {
        assert SetOf(s) * k == SetOf(init) * k;
      }
    } else {
      assert SetOf(s) * k == {};
    }
  }

  lemma {:induction false} SetSize<T>(s: seq<T>)
    ensures |SetOf(s)| <= |s|
    ensures |SetOf(s)| == |s| <==> Distinct(s)
  {
    if s != [] {
      var init, last := s[..|s| - 1], s[|s| - 1];
      SetSize(init);
      assert s == init + [last];
      assert SetOf(s) == SetOf(init) + {last};
      if last in init {
        var i :| 0 <= i < |init| && init[i] == last;
        assert s[i] == s[|s| - 1];
        assert SetOf(s) == SetOf(init);
      } else {
        assert Distinct(init) ==> Distinct(s);
        assert Distinct(s) ==> Distinct(init);
      }
    }
  }

  /** Reading a counter map. */
  function Get(m: map<string, nat>, k: string): nat {
    if k in m then m[k] else 0
  }

  /** How often each non-empty name occurs; elements without a name are left out. */
  function Tally<T>(s: seq<T>, name: T -> string): map<string, nat> {
    if s == [] then map[]
    else Bumped(Tally(s[..|s| - 1], name), name(s[|s| - 1]))
  }

  function Bumped(m: map<string, nat>, k: string): map<string, nat> {
    if k == "" then m else m[k := Get(m, k) + 1]
  }

  lemma {:induction false} TallyAppend<T>(s: seq<T>, x: T, name: T -> string)
    ensures Tally(s + [x], name) == Bumped(Tally(s, name), name(x))
  {
    assert (s + [x])[..|s|] == s;
  }

  lemma {:induction false} TallyExact<T>(s: seq<T>, name: T -> string, k: string, p: T -> bool)
    requires forall x :: x in s ==> p(x) == (name(x) == k)
    ensures k in Tally(s, name) <==> k != "" && exists x :: x in s && name(x) == k
    ensures k != "" ==> Get(Tally(s, name), k) == Count(s, p)
  {
    if s != [] {
      var init, last := s[..|s| - 1], s[|s| - 1];
      assert forall x :: x in s <==> x in init || x == last;
      TallyExact(init, name, k, p);
    }
  }

  function SumOfCounts(counts: map<string, nat>, names: seq<string>): nat {
    SumOver(names, k => Get(counts, k))
  }

  /** A tally accounts for every named element, in any order of the names. */
  lemma {:induction false} TallyAddsUp<T>(s: seq<T>, name: T -> string, names: seq<string>, p: T -> bool)
    requires Distinct(names) && "" !in names
    requires forall k :: k in Tally(s, name) ==> k in names
    requires forall x :: x in s ==> p(x) == (name(x) != "")
    ensures SumOfCounts(Tally(s, name), names) == Count(s, p)
  {
    forall k
      ensures k in names ==> Get(Tally(s, name), k) == InGroup(s, name, p, k)
      ensures (exists x :: x in s && name(x) == k) && k != "" ==> k in names
    {
      if k != "" { TallyExact(s, name, k, x => name(x) == k && p(x)); }
    }
    assert forall x :: x in s && p(x) ==> name(x) in names;
    SumEqual(names, k => Get(Tally(s, name), k), k => InGroup(s, name, p, k));
    GroupsAddUp(s, name, p, names);
  }
}
