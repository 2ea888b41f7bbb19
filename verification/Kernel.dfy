/**
 The commands behind up and down, run in place on the kernel's tables, one
 table per tool. Commands stop taking effect after some number of them, as
 when the node dies or the tool fails for good.
 */
module KernelTables {
  import opened Firewall
  import opened OwnChains

  lemma {:induction false} EmptyingAt(names: seq<string>, i: nat)
    requires i < |names|
    ensures |Emptying(names)| == |names| && Emptying(names)[i] == Empty(names[i])
  {
    if |names| > 1 { EmptyingAt(names[1..], if i > 0 then i - 1 else 0); }
  }

  lemma {:induction false} FillingAt(rules: seq<Hook>, i: nat)
    requires i < |rules|
    ensures |Filling(rules)| == |rules| && Filling(rules)[i] == Fill(rules[i].builtin, rules[i].rule)
  {
    if |rules| > 1 { FillingAt(rules[1..], if i > 0 then i - 1 else 0); }
  }

  lemma {:induction false} JoiningAt(jumps: seq<Hook>, i: nat)
    requires i < |jumps|
    ensures |Joining(jumps)| == |jumps| && Joining(jumps)[i] == Join(jumps[i].builtin, jumps[i].rule)
  {
    if |jumps| > 1 { JoiningAt(jumps[1..], if i > 0 then i - 1 else 0); }
  }

  lemma {:induction false} LeavingAt(jumps: seq<Hook>, i: nat)
    requires i < |jumps|
    ensures |Leaving(jumps)| == |jumps| && Leaving(jumps)[i] == Leave(jumps[i].builtin, jumps[i].rule)
  {
    if |jumps| > 1 { LeavingAt(jumps[1..], if i > 0 then i - 1 else 0); }
  }

  lemma {:induction false} ClearingAt(names: seq<string>, i: nat)
    requires i < |names|
    ensures |Clearing(names)| == 2 * |names|
    ensures Clearing(names)[2 * i] == Wipe(names[i]) && Clearing(names)[2 * i + 1] == Discard(names[i])
  {
    if |names| > 1 {
      ClearingAt(names[1..], if i > 0 then i - 1 else 0);
      if i > 0 {
        assert names[1..][i - 1] == names[i];
        assert Clearing(names)[2 * i] == Clearing(names[1..])[2 * (i - 1)];
        assert Clearing(names)[2 * i + 1] == Clearing(names[1..])[2 * (i - 1) + 1];
      }
    }
  }

  lemma EmptyingSize(names: seq<string>)
    ensures |Emptying(names)| == |names| && |Clearing(names)| == 2 * |names|
  {
  }

  lemma FillingSize(rules: seq<Hook>)
    ensures |Filling(rules)| == |rules|
  {
  }

  lemma JoiningSize(jumps: seq<Hook>)
    ensures |Joining(jumps)| == |jumps| && |Leaving(jumps)| == |jumps|
  {
  }

  /** The table after the first n of some steps, or all of them when there are fewer. */
  function Reached(t: Table, steps: seq<Step>, n: nat): Table {
    if n <= |steps| then DoAll(t, steps[..n]) else DoAll(t, steps)
  }

  /** The first n steps and one more. */
  lemma OneMore(t: Table, steps: seq<Step>, n: nat)
    requires n < |steps|
    ensures Reached(t, steps, n + 1) == Do(Reached(t, steps, n), steps[n])
  {
    assert steps[..n + 1] == steps[..n] + [steps[n]];
    DoAllAppend(t, steps[..n], [steps[n]]);
  }

  lemma OnePart(t: Table, a: seq<Step>, b: seq<Step>, n: nat)
    requires n <= |a|
    ensures Reached(t, a + b, n) == Reached(t, a, n)
    ensures Reached(t, a, |a|) == DoAll(t, a)
  {
    assert (a + b)[..n] == a[..n];
    assert a[..|a|] == a;
  }

  lemma TwoParts(t: Table, a: seq<Step>, b: seq<Step>, n: nat)
    requires n <= |b|
    ensures Reached(t, a + b, |a| + n) == Reached(DoAll(t, a), b, n)
  {
    assert (a + b)[..|a| + n] == a + b[..n];
    DoAllAppend(t, a, b[..n]);
  }

  lemma AllSteps(t: Table, a: seq<Step>, n: nat)
    requires n >= |a|
    ensures Reached(t, a, n) == DoAll(t, a)
  {
    assert a[..|a|] == a;
  }

  ghost predicate AllIn(hooks: seq<Hook>, t: Table) { forall h :: h in hooks ==> h.builtin in t }

  ghost predicate Made(names: seq<string>, t: Table) { forall k :: 0 <= k < |names| ==> names[k] in t }

  /** What up needs: chains named for its rules, built-in chains for its jumps. */
  ghost predicate CanRun(t: Table, c: Chains) {
    AllIn(c.jumps, t) && forall h :: h in c.rules ==> h.builtin in c.names
  }

  lemma RulesHaveChains(t: Table, made: Table, c: Chains)
    requires Made(c.names, made)
    ensures CanRun(t, c) ==> AllIn(c.rules, made)
  {
  }

  /** Emptying and filling, the part of up before any jump. */
  function Preparing(c: Chains): (s: seq<Step>)
    ensures Up(c) == s + Joining(c.jumps)
  {
    Emptying(c.names) + Filling(c.rules)
  }

  lemma Over(t: Table, a: seq<Step>, b: seq<Step>, n: nat)
    requires n >= |a|
    ensures Reached(t, a, n) == DoAll(t, a)
    ensures Reached(t, a + b, n) == Reached(DoAll(t, a), b, n - |a|)
  {
    AllSteps(t, a, n);
    if n <= |a| + |b| {
      TwoParts(t, a, b, n - |a|);
    } else {
      AllSteps(t, a + b, n);
      AllSteps(DoAll(t, a), b, n - |a|);
      DoAllAppend(t, a, b);
    }
  }

  function Drained(left: nat, used: nat): nat { if used < left then left - used else 0 }

  lemma PreparingSize(c: Chains)
    ensures |Preparing(c)| == |c.names| + |c.rules| && |Up(c)| == |Preparing(c)| + |c.jumps|
  {
    EmptyingSize(c.names);
    FillingSize(c.rules);
    JoiningSize(c.jumps);
  }

  /** The families before k are up, k was cut short, those after were not begun. */
  ghost predicate Stopped(chains: seq<Chains>, done: seq<nat>, k: nat)
    requires k < |done| == |chains|
  {
    && done[k] < |Up(chains[k])|
    && (forall i :: 0 <= i < k ==> done[i] == |Up(chains[i])|)
    && (forall i :: k < i < |done| ==> done[i] == 0)
  }

  /**
   One address family's tool and the table it works on. Only the next left
   commands take effect: later ones fail, as after the node has died.
   */
  class Tool {
    var table: Table
    var left: nat

    method Command(c: Command) returns (ok: bool)
      modifies this
      ensures ok <==> old(left) > 0 && Execute(old(table), c).Some?
      ensures left == if old(left) > 0 then old(left) - 1 else 0
      ensures table == if ok then Try(old(table), c) else old(table)
    {
      ok := left > 0 && Execute(table, c).Some?;
      if ok {
        table := Execute(table, c).value;
      }
      if left > 0 {
        left := left - 1;
      }
    }

    /** Creates a chain, or empties it when it is left from an earlier run. */
    method EmptyChain(chain: string) returns (ok: bool)
      modifies this
      ensures old(left) <= left + 2 && (old(left) >= 2 ==> ok)
      ensures table == if ok then Do(old(table), Empty(chain)) else old(table)
    {
      ok := Command(NewChain(chain));
      if !ok {
        ok := Command(Flush(chain));
      }
    }

    /** Inserts a jump at the top unless the check finds it. */
    method AddJump(jump: Hook) returns (ok: bool)
      modifies this
      ensures old(left) <= left + 2 && (old(left) >= 2 && jump.builtin in old(table) ==> ok)
      ensures table == if ok then Do(old(table), Join(jump.builtin, jump.rule)) else old(table)
    {
      ok := Command(Check(jump.builtin, jump.rule));
      if !ok {
        ok := Command(Insert(jump.builtin, jump.rule));
      }
    }

    method EmptyChains(names: seq<string>) returns (ok: bool, ghost done: nat)
      modifies this
      ensures old(left) <= left + 2 * |names| && (old(left) >= 2 * |names| ==> ok)
      ensures old(table).Keys <= table.Keys && (ok ==> Made(names, table))
      ensures done <= |Emptying(names)| == |names| && table == Reached(old(table), Emptying(names), done)
      ensures ok <==> done == |names|
    {
      ghost var all := Emptying(names);
      EmptyingSize(names);
      done, ok := 0, true;
      for i := 0 to |names|
        invariant done == i && ok && |all| == |names|
        invariant old(left) <= left + 2 * i
        invariant table == Reached(old(table), all, i) && old(table).Keys <= table.Keys
        invariant Made(names[..i], table)
      {
        EmptyingAt(names, i);
        OneMore(old(table), all, i);
        ok := EmptyChain(names[i]);
        if !ok { return; }
        done := i + 1;
      }
      assert names[..|names|] == names;
    }

    method FillChains(rules: seq<Hook>) returns (ok: bool, ghost done: nat)
      modifies this
      ensures old(left) <= left + |rules| && (old(left) >= |rules| && AllIn(rules, old(table)) ==> ok)
      ensures old(table).Keys <= table.Keys
      ensures done <= |Filling(rules)| == |rules| && table == Reached(old(table), Filling(rules), done)
      ensures ok <==> done == |rules|
    {
      ghost var all := Filling(rules);
      FillingSize(rules);
      done, ok := 0, true;
      for i := 0 to |rules|
        invariant done == i && ok && |all| == |rules|
        invariant old(left) <= left + i
        invariant table == Reached(old(table), all, i) && old(table).Keys <= table.Keys
      {
        FillingAt(rules, i);
        OneMore(old(table), all, i);
        ok := Command(Append(rules[i].builtin, rules[i].rule));
        if !ok { return; }
        done := i + 1;
      }
    }

    method AddJumps(jumps: seq<Hook>) returns (ok: bool, ghost done: nat)
      modifies this
      ensures old(left) <= left + 2 * |jumps| && (old(left) >= 2 * |jumps| && AllIn(jumps, old(table)) ==> ok)
      ensures done <= |Joining(jumps)| == |jumps| && table == Reached(old(table), Joining(jumps), done)
      ensures ok <==> done == |jumps|
    {
      ghost var all := Joining(jumps);
      JoiningSize(jumps);
      done, ok := 0, true;
      for i := 0 to |jumps|
        invariant done == i && ok && |all| == |jumps|
        invariant old(left) <= left + 2 * i
        invariant table == Reached(old(table), all, i) && old(table).Keys <= table.Keys
      {
        JoiningAt(jumps, i);
        OneMore(old(table), all, i);
        ok := AddJump(jumps[i]);
        if !ok { return; }
        done := i + 1;
      }
    }

    method FillNew(c: Chains) returns (ok: bool, ghost done: nat)
      modifies this
      ensures old(left) <= left + 2 * |Preparing(c)|
      ensures done <= |Preparing(c)| && table == Reached(old(table), Preparing(c), done)
      ensures ok <==> done == |Preparing(c)|
      ensures CanRun(old(table), c) && old(left) >= 2 * |Preparing(c)| ==> ok
      ensures old(table).Keys <= table.Keys
    {
      PreparingSize(c);
      ok, done := EmptyChains(c.names);
      OnePart(old(table), Emptying(c.names), Filling(c.rules), done);
      if !ok { return; }
      RulesHaveChains(old(table), table, c);
      ghost var more;
      ok, more := FillChains(c.rules);
      TwoParts(old(table), Emptying(c.names), Filling(c.rules), more);
      done := |c.names| + more;
    }

    /**
     Runs up. The table is that of the first done steps of up; all of them
     are done exactly when no error is returned, and none is when there are
     commands enough and the built-in chains are there.
     */
    method RunUp(c: Chains) returns (ok: bool, ghost done: nat)
      modifies this
      ensures done <= |Up(c)| && table == Reached(old(table), Up(c), done)
      ensures ok <==> done == |Up(c)|
      ensures CanRun(old(table), c) && old(left) >= 2 * |Up(c)| ==> ok
    {
      PreparingSize(c);
      ok, done := FillNew(c);
      OnePart(old(table), Preparing(c), Joining(c.jumps), done);
      if !ok { return; }
      ghost var more;
      ok, more := AddJumps(c.jumps);
      TwoParts(old(table), Preparing(c), Joining(c.jumps), more);
      done := |Preparing(c)| + more;
    }

    method RemoveJumps(jumps: seq<Hook>)
      modifies this
      ensures left == Drained(old(left), |jumps|)
      ensures table == Reached(old(table), Leaving(jumps), old(left))
    {
      ghost var all := Leaving(jumps);
      JoiningSize(jumps);
      for i := 0 to |jumps|
        invariant |all| == |jumps| && left == Drained(old(left), i)
        invariant table == Reached(old(table), all, if i < old(left) then i else old(left))
      {
        LeavingAt(jumps, i);
        OneMore(old(table), all, i);
        var _ := Command(Delete(jumps[i].builtin, jumps[i].rule));
      }
      assert all[..|all|] == all;
    }

    /** Empties a chain and deletes it, as far as commands are left. */
    method RemoveChain(name: string)
      modifies this
      ensures left == Drained(old(left), 2)
      ensures table == if old(left) == 0 then old(table)
                       else if old(left) == 1 then Do(old(table), Wipe(name))
                       else Do(Do(old(table), Wipe(name)), Discard(name))
    {
      var _ := Command(Flush(name));
      var _ := Command(DeleteChain(name));
    }

    method RemoveChains(names: seq<string>)
      modifies this
      ensures table == Reached(old(table), Clearing(names), old(left))
    {
      ghost var all := Clearing(names);
      EmptyingSize(names);
      for i := 0 to |names|
        invariant |all| == 2 * |names| && left == Drained(old(left), 2 * i)
        invariant table == Reached(old(table), all, if 2 * i < old(left) then 2 * i else old(left))
      {
        ClearingAt(names, i);
        OneMore(old(table), all, 2 * i);
        OneMore(old(table), all, 2 * i + 1);
        RemoveChain(names[i]);
      }
      assert all[..|all|] == all;
    }

    /** Runs down: as many of its steps as there are commands left. */
    method RunDown(c: Chains)
      modifies this
      ensures table == Reached(old(table), Down(c), old(left))
    {
      JoiningSize(c.jumps);
      RemoveJumps(c.jumps);
      ghost var had := old(left);
      if had <= |c.jumps| {
        OnePart(old(table), Leaving(c.jumps), Clearing(c.names), had);
      } else {
        Over(old(table), Leaving(c.jumps), Clearing(c.names), had);
      }
      RemoveChains(c.names);
    }
  }

  /** Up over the address families: the first error stops it, and later families stay as they were. */
  method UpAll(tools: seq<Tool>, chains: seq<Chains>) returns (ok: bool, ghost done: seq<nat>)
    requires |tools| == |chains| && forall i, j :: 0 <= i < j < |tools| ==> tools[i] != tools[j]
    modifies tools
    ensures |done| == |tools|
    ensures forall i :: 0 <= i < |tools| ==>
      done[i] <= |Up(chains[i])| && tools[i].table == Reached(old(tools[i].table), Up(chains[i]), done[i])
    ensures ok <==> forall i :: 0 <= i < |tools| ==> done[i] == |Up(chains[i])|
    ensures !ok ==> exists k :: 0 <= k < |tools| && Stopped(chains, done, k)
    ensures (forall i :: 0 <= i < |tools| ==>
               CanRun(old(tools[i].table), chains[i]) && old(tools[i].left) >= 2 * |Up(chains[i])|) ==> ok
  {
    done := seq(|tools|, i => 0);
    ok := true;
    for i := 0 to |tools|
      invariant ok && |done| == |tools|
      invariant forall k :: 0 <= k < i ==>
        done[k] == |Up(chains[k])| && tools[k].table == Reached(old(tools[k].table), Up(chains[k]), done[k])
      invariant forall k :: i <= k < |tools| ==>
        done[k] == 0 && tools[k].table == old(tools[k].table) && tools[k].left == old(tools[k].left)
    {
      ghost var n;
      ok, n := tools[i].RunUp(chains[i]);
      done := done[i := n];
      if !ok {
        assert Stopped(chains, done, i);
        return;
      }
    }
  }
}
