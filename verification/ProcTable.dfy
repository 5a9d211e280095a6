/** The process table of proc.c and the loops that scan it under ptable.lock. */
module ProcTable {

  datatype PState = Unused | Embryo | Sleeping | Runnable | Running | Zombie

  /** What a process can sleep on: itself, in wait(); or some other kernel object. */
  datatype Chan = NoChan | Self(p: int) | Object(id: nat)

  predicate Live(st: PState) { st.Sleeping? || st.Runnable? || st.Running? }

  // ---------- what the scans compute ----------

  /** Everyone who sleeps on ch is runnable. */
  function Wake(st: seq<PState>, chan: seq<Chan>, ch: Chan): (r: seq<PState>)
    requires |chan| == |st|
    ensures |r| == |st|
  {
    seq(|st|, i requires 0 <= i < |st| => if st[i].Sleeping? && chan[i] == ch then Runnable else st[i])
  }

  predicate ZombieChild(st: seq<PState>, parent: seq<int>, p: int, q: int) {
    0 <= q < |st| && q < |parent| && parent[q] == p && st[q].Zombie?
  }

  /** A child of p among the first n is a zombie. */
  predicate HasZombie(st: seq<PState>, parent: seq<int>, p: int, n: nat) {
    exists q :: 0 <= q < n && ZombieChild(st, parent, p, q)
  }

  /** The children of p go to init. */
  function Adopt(parent: seq<int>, p: int, init: int): (r: seq<int>)
    ensures |r| == |parent|
  {
    seq(|parent|, i requires 0 <= i < |parent| => if parent[i] == p then init else parent[i])
  }

  /** exit(): the parent wakes, and init too if it inherits a zombie; p is a zombie. */
  function Exited(st: seq<PState>, chan: seq<Chan>, parent: seq<int>, p: nat, init: int): (r: seq<PState>)
    requires |chan| == |parent| == |st| && p < |st|
    ensures |r| == |st|
  {
    var woken := Wake(st, chan, Self(parent[p]));
    (if HasZombie(woken, parent, p, |st|) then Wake(woken, chan, Self(init)) else woken)[p := Zombie]
  }

  /** The first child of p from i on that is a zombie, or the size of the table. */
  function FirstZombie(st: seq<PState>, parent: seq<int>, p: int, i: nat): (q: nat)
    requires i <= |st| == |parent|
    ensures i <= q <= |st| && (q < |st| ==> ZombieChild(st, parent, p, q))
    ensures forall k :: i <= k < q ==> !ZombieChild(st, parent, p, k)
    decreases |st| - i
  {
    if i == |st| || ZombieChild(st, parent, p, i) then i else FirstZombie(st, parent, p, i + 1)
  }

  lemma {:induction false} WakeTwice(st: seq<PState>, chan: seq<Chan>, ch: Chan)
    requires |chan| == |st|
    ensures Wake(Wake(st, chan, ch), chan, ch) == Wake(st, chan, ch)
  {
  }

  // ---------- the scans ----------

  class Table {
    const state: array<PState>
    const chan: array<Chan>
    const parent: array<int>

    ghost predicate Valid()
      reads this
    {
      state.Length == chan.Length == parent.Length
    }

    /** wakeup1() */
    method Wakeup1(ch: Chan)
      requires Valid()
      modifies state
      ensures state[..] == Wake(old(state[..]), chan[..], ch)
    {
      ghost var woken := Wake(state[..], chan[..], ch);
      var i := 0;
      while i < state.Length
        invariant 0 <= i <= state.Length
        invariant forall k :: 0 <= k < state.Length ==> state[k] == if k < i then woken[k] else old(state[k])
      {
        if state[i] == Sleeping && chan[i] == ch {
          state[i] := Runnable;
        }
        i := i + 1;
      }
    }

    /** The locked part of exit() by process p, up to the switch to the scheduler. */
    method Exit(p: nat, init: nat)
      requires Valid() && p < state.Length
      modifies state, parent
      ensures state[..] == Exited(old(state[..]), chan[..], old(parent[..]), p, init)
      ensures parent[..] == Adopt(old(parent[..]), p, init)
    {
      ghost var par := parent[..];
      Wakeup1(Self(parent[p]));
      PassChildren(p, init);
      state[p] := Zombie;
    }

    /** The loop of exit(). */
    method PassChildren(p: nat, init: nat)
      requires Valid()
      modifies state, parent
      ensures parent[..] == Adopt(old(parent[..]), p, init)
      ensures state[..] == if HasZombie(old(state[..]), old(parent[..]), p, state.Length)
        then Wake(old(state[..]), chan[..], Self(init)) else old(state[..])
    {
      ghost var st, par := state[..], parent[..];
      ghost var woken := Wake(st, chan[..], Self(init));
      WakeTwice(st, chan[..], Self(init));
      var i := 0;
      while i < state.Length
        invariant 0 <= i <= state.Length
        invariant forall k :: 0 <= k < state.Length ==> parent[k] == if k < i && par[k] == p then init else par[k]
        invariant state[..] == if HasZombie(st, par, p, i) then woken else st
      {
        assert HasZombie(st, par, p, i + 1) <==> HasZombie(st, par, p, i) || ZombieChild(st, par, p, i);
        assert woken[i].Zombie? <==> st[i].Zombie?;
        if parent[i] == p {
          parent[i] := init;
          if state[i] == Zombie {
            Wakeup1(Self(init));
          }
        }
        i := i + 1;
      }
    }

    /** The scan of wait() by process p: the child it frees, if any, and whether there are children. */
    method WaitScan(p: nat) returns (q: int, kids: bool)
      requires Valid()
      modifies state, parent
      ensures kids <==> p in old(parent[..])
      ensures q == -1 <==> !HasZombie(old(state[..]), old(parent[..]), p, state.Length)
      ensures q == -1 ==> state[..] == old(state[..]) && parent[..] == old(parent[..])
      ensures q != -1 ==> 0 <= q < state.Length && q == FirstZombie(old(state[..]), old(parent[..]), p, 0)
      ensures q != -1 ==> state[..] == old(state[..])[q := Unused] && parent[..] == old(parent[..])[q := -1]
    {
      kids := false;
      var i := 0;
      while i < state.Length
        invariant 0 <= i <= state.Length
        invariant state[..] == old(state[..]) && parent[..] == old(parent[..])
        invariant kids <==> p in parent[..i]
        invariant forall k :: 0 <= k < i ==> !ZombieChild(state[..], parent[..], p, k)
      {
        assert parent[..i + 1] == parent[..i] + [parent[i]];
        if parent[i] == p {
          kids := true;
          if state[i] == Zombie {
            assert ZombieChild(state[..], parent[..], p, i);
            assert parent[i] in parent[..];
            FirstZombieIs(state[..], parent[..], p, i, 0);
            parent[i] := -1;
            state[i] := Unused;
            return i, true;
          }
        }
        i := i + 1;
      }
      assert parent[..i] == parent[..];
      q := -1;
    }
  }

  lemma {:induction false} FirstZombieIs(st: seq<PState>, parent: seq<int>, p: int, q: nat, i: nat)
    requires i <= q < |st| == |parent| && ZombieChild(st, parent, p, q)
    requires forall k :: 0 <= k < q ==> !ZombieChild(st, parent, p, k)
    ensures FirstZombie(st, parent, p, i) == q
    decreases q - i
  {
  }
}
