/**
 Installing and removing the node's own chains in one table. Up empties or
 creates the chains, fills them, then adds the jumps that are missing; down
 removes the jumps and the chains. Either may be cut off after any command.
 */
module OwnChains {
  import opened Basics
  import opened Firewall

  datatype Hook = Hook(builtin: string, rule: Rule)

  datatype Chains = Chains(names: seq<string>, rules: seq<Hook>, jumps: seq<Hook>)

  /** The steps of up and down; each leaves the table as its commands do. */
  datatype Step =
    | Empty(chain: string)
    | Fill(chain: string, rule: Rule)
    | Join(builtin: string, rule: Rule)
    | Leave(builtin: string, rule: Rule)
    | Wipe(chain: string)
    | Discard(chain: string)

  function Do(t: Table, s: Step): Table {
    match s
    case Empty(chain) => if chain in t then Try(t, Flush(chain)) else Try(t, NewChain(chain))
    case Fill(chain, rule) => Try(t, Append(chain, rule))
    case Join(builtin, rule) => if Execute(t, Check(builtin, rule)).Some? then t else Try(t, Insert(builtin, rule))
    case Leave(builtin, rule) => Try(t, Delete(builtin, rule))
    case Wipe(chain) => Try(t, Flush(chain))
    case Discard(chain) => Try(t, DeleteChain(chain))
  }

  function DoAll(t: Table, steps: seq<Step>): Table
    decreases |steps|
  {
    if steps == [] then t else DoAll(Do(t, steps[0]), steps[1..])
  }

  function Emptying(names: seq<string>): (s: seq<Step>)
    ensures forall x :: x in s ==> x.Empty? && x.chain in names
  {
    if names == [] then [] else [Empty(names[0])] + Emptying(names[1..])
  }

  function Filling(rules: seq<Hook>): (s: seq<Step>)
    ensures forall x :: x in s ==> x.Fill? && Hook(x.chain, x.rule) in rules
  {
    if rules == [] then [] else [Fill(rules[0].builtin, rules[0].rule)] + Filling(rules[1..])
  }

  function Joining(jumps: seq<Hook>): (s: seq<Step>)
    ensures forall x :: x in s ==> x.Join? && Hook(x.builtin, x.rule) in jumps
  {
    if jumps == [] then [] else [Join(jumps[0].builtin, jumps[0].rule)] + Joining(jumps[1..])
  }

  function Leaving(jumps: seq<Hook>): (s: seq<Step>)
    ensures forall x :: x in s ==> x.Leave? && Hook(x.builtin, x.rule) in jumps
  {
    if jumps == [] then [] else [Leave(jumps[0].builtin, jumps[0].rule)] + Leaving(jumps[1..])
  }

  function Clearing(names: seq<string>): (s: seq<Step>)
    ensures forall x :: x in s ==> (x.Wipe? || x.Discard?) && x.chain in names
  {
    if names == [] then [] else [Wipe(names[0]), Discard(names[0])] + Clearing(names[1..])
  }

  function Up(c: Chains): seq<Step> { Emptying(c.names) + Filling(c.rules) + Joining(c.jumps) }

  function Down(c: Chains): seq<Step> { Leaving(c.jumps) + Clearing(c.names) }

  // ---- what a table may look like ----

  predicate OwnRule(names: seq<string>, r: Rule) { r.target.Jump? && r.target.chain in names }

  /** The jumps of ours that belong in a built-in chain. */
  function OwnAt(jumps: seq<Hook>, chain: string): (own: set<Rule>)
    ensures forall r :: r in own <==> Hook(chain, r) in jumps
  {
    set h | h in jumps && h.builtin == chain :: h.rule
  }

  /** The rules of a built-in chain that are not jumps of ours, in order. */
  function Foreign(own: set<Rule>, rules: seq<Rule>): (left: seq<Rule>)
    ensures forall r :: r in left <==> r in rules && r !in own
  {
    if rules == [] then []
    else if rules[0] in own then Foreign(own, rules[1..])
    else [rules[0]] + Foreign(own, rules[1..])
  }

  /** The rules given for a chain, in order. */
  function RulesFor(rules: seq<Hook>, chain: string): seq<Rule> {
    if rules == [] then []
    else (if rules[0].builtin == chain then [rules[0].rule] else []) + RulesFor(rules[1..], chain)
  }

  ghost predicate WellFormed(c: Chains) {
    && (forall h :: h in c.rules ==> h.builtin in c.names && !OwnRule(c.names, h.rule))
    && (forall h :: h in c.jumps ==> h.builtin !in c.names && OwnRule(c.names, h.rule))
    && (forall i, j :: 0 <= i < j < |c.jumps| ==> c.jumps[i] != c.jumps[j])
    && (forall i, j :: 0 <= i < j < |c.names| ==> c.names[i] != c.names[j])
  }

  /**
   What earlier runs can leave behind: the built-in chains are there and no
   jump of ours is in one twice. The chains themselves may hold anything or be
   missing, and runs with other jumps may have left theirs.
   */
  ghost predicate Recoverable(t: Table, c: Chains) {
    forall h :: h in c.jumps ==> h.builtin in t && Count(t[h.builtin], h.rule) <= 1
  }

  /** None of our chains jumps to one of our chains. */
  ghost predicate Flat(t: Table, names: seq<string>) {
    forall n, r :: n in names && n in t && r in t[n] ==> !OwnRule(names, r)
  }

  lemma {:induction false} DoAllAppend(t: Table, a: seq<Step>, b: seq<Step>)
    ensures DoAll(t, a + b) == DoAll(DoAll(t, a), b)
    decreases |a|
  {
    if a == [] {
      assert a + b == b;
    } else {
      assert (a + b)[0] == a[0] && (a + b)[1..] == a[1..] + b;
      DoAllAppend(Do(t, a[0]), a[1..], b);
    }
  }

  lemma {:induction false} CountAppend(a: seq<Rule>, b: seq<Rule>, r: Rule)
    ensures Count(a + b, r) == Count(a, r) + Count(b, r)
  {
    if a == [] {
      assert a + b == b;
    } else {
      assert (a + b)[1..] == a[1..] + b;
      CountAppend(a[1..], b, r);
    }
  }

  lemma {:induction false} StrikeOther(rules: seq<Rule>, r: Rule, x: Rule)
    requires x != r
    ensures Count(Strike(rules, r), x) == Count(rules, x)
  {
    if rules != [] && rules[0] != r {
      var rest := Strike(rules[1..], r);
      assert ([rules[0]] + rest)[1..] == rest;
      StrikeOther(rules[1..], r, x);
    }
  }

  lemma {:induction false} StrikeForeign(own: set<Rule>, rules: seq<Rule>, r: Rule)
    requires r in own
    ensures Foreign(own, Strike(rules, r)) == Foreign(own, rules)
  {
    if rules != [] && rules[0] != r {
      var rest := Strike(rules[1..], r);
      assert ([rules[0]] + rest)[1..] == rest;
      StrikeForeign(own, rules[1..], r);
    }
  }

  lemma {:induction false} AllForeign(own: set<Rule>, rules: seq<Rule>)
    requires forall r :: r in rules ==> r !in own
    ensures Foreign(own, rules) == rules
  {
    if rules != [] {
      assert rules[0] in rules;
      AllForeign(own, rules[1..]);
    }
  }

  // ---- one step ----

  /** A step of ours: on our chains, or one of our jumps. */
  predicate OwnStep(c: Chains, s: Step) {
    match s
    case Empty(chain) => chain in c.names
    case Fill(chain, rule) => chain in c.names && !OwnRule(c.names, rule)
    case Join(builtin, rule) => Hook(builtin, rule) in c.jumps
    case Leave(builtin, rule) => Hook(builtin, rule) in c.jumps
    case Wipe(chain) => chain in c.names
    case Discard(chain) => chain in c.names
  }

  /** Everything that is not ours is as before, in order. */
  ghost predicate SameForeign(before: Table, after: Table, c: Chains) {
    forall chain :: chain !in c.names ==>
      && (chain in before <==> chain in after)
      && (chain in before ==>
            Foreign(OwnAt(c.jumps, chain), after[chain]) == Foreign(OwnAt(c.jumps, chain), before[chain]))
  }

  lemma OwnChainStep(t: Table, c: Chains, s: Step)
    requires WellFormed(c) && Recoverable(t, c) && OwnStep(c, s) && !s.Join? && !s.Leave?
    ensures Recoverable(Do(t, s), c) && SameForeign(t, Do(t, s), c)
  {
  }

  lemma JoinStep(t: Table, c: Chains, h: Hook)
    requires WellFormed(c) && Recoverable(t, c) && h in c.jumps
    ensures Recoverable(Do(t, Join(h.builtin, h.rule)), c) && SameForeign(t, Do(t, Join(h.builtin, h.rule)), c)
  {
  }

  /** What striking a jump of ours leaves of a chain. */
  lemma Struck(own: set<Rule>, rules: seq<Rule>, r: Rule, x: Rule)
    requires r in own
    ensures Foreign(own, Strike(rules, r)) == Foreign(own, rules)
    ensures Count(rules, x) <= 1 ==> Count(Strike(rules, r), x) <= 1
  {
    StrikeForeign(own, rules, r);
    if x != r {
      StrikeOther(rules, r, x);
    }
  }

  lemma LeaveDoes(t: Table, h: Hook)
    requires h.builtin in t
    ensures Do(t, Leave(h.builtin, h.rule)) ==
      if h.rule in t[h.builtin] then t[h.builtin := Strike(t[h.builtin], h.rule)] else t
  {
  }

  ghost predicate Kept(before: Table, after: Table, c: Chains) {
    Recoverable(after, c) && SameForeign(before, after, c)
  }

  lemma StruckKept(t: Table, c: Chains, h: Hook)
    requires WellFormed(c) && Recoverable(t, c) && h in c.jumps
    ensures Kept(t, t[h.builtin := Strike(t[h.builtin], h.rule)], c)
  {
    assert h.rule in OwnAt(c.jumps, h.builtin);
    forall x ensures Foreign(OwnAt(c.jumps, h.builtin), Strike(t[h.builtin], h.rule))
                  == Foreign(OwnAt(c.jumps, h.builtin), t[h.builtin])
             ensures Count(t[h.builtin], x) <= 1 ==> Count(Strike(t[h.builtin], h.rule), x) <= 1
    {
      Struck(OwnAt(c.jumps, h.builtin), t[h.builtin], h.rule, x);
    }
  }

  lemma LeaveStep(t: Table, c: Chains, h: Hook)
    requires WellFormed(c) && Recoverable(t, c) && h in c.jumps
    ensures Kept(t, Do(t, Leave(h.builtin, h.rule)), c)
  {
    LeaveDoes(t, h);
    StruckKept(t, c, h);
  }

  /** Any step leaves a recoverable table and foreign rules untouched. */
  lemma StepRecoverable(t: Table, c: Chains, s: Step)
    requires WellFormed(c) && Recoverable(t, c) && OwnStep(c, s)
    ensures Recoverable(Do(t, s), c) && SameForeign(t, Do(t, s), c)
  {
    match s
    case Join(builtin, rule) => JoinStep(t, c, Hook(builtin, rule));
    case Leave(builtin, rule) => LeaveStep(t, c, Hook(builtin, rule));
    case _ => OwnChainStep(t, c, s);
  }

  /**
   A run of up or down cut off anywhere, whatever rules it was to fill in,
   leaves a table the next run can start from.
   */
  lemma {:induction false} CutOffRecoverable(t: Table, c: Chains, steps: seq<Step>)
    requires WellFormed(c) && Recoverable(t, c) && forall s :: s in steps ==> OwnStep(c, s)
    ensures Recoverable(DoAll(t, steps), c) && SameForeign(t, DoAll(t, steps), c)
    decreases |steps|
  {
    if steps != [] {
      assert steps[0] in steps;
      StepRecoverable(t, c, steps[0]);
      CutOffRecoverable(Do(t, steps[0]), c, steps[1..]);
    }
  }

  lemma UpDownOwn(c: Chains)
    requires WellFormed(c)
    ensures forall s :: s in Up(c) ==> OwnStep(c, s)
    ensures forall s :: s in Down(c) ==> OwnStep(c, s)
  {
  }

  // ---- what up and down achieve ----

  lemma {:induction false} EmptyPhase(t: Table, names: seq<string>)
    ensures var after := DoAll(t, Emptying(names));
            && (forall n :: n in names ==> n in after && after[n] == [])
            && (forall chain :: chain !in names ==>
                  (chain in after <==> chain in t) && (chain in t ==> after[chain] == t[chain]))
    decreases |names|
  {
    if names != [] {
      var rest := Emptying(names[1..]);
      assert Emptying(names)[1..] == rest;
      EmptyPhase(Do(t, Empty(names[0])), names[1..]);
    }
  }

  lemma FillUnroll(t: Table, rules: seq<Hook>)
    requires rules != [] && rules[0].builtin in t
    ensures DoAll(t, Filling(rules)) ==
      DoAll(t[rules[0].builtin := t[rules[0].builtin] + [rules[0].rule]], Filling(rules[1..]))
  {
  }

  /** A chain ends with the rules given for it, after what it had. */
  predicate Filled(before: Table, after: Table, rules: seq<Hook>, chain: string) {
    after.Keys == before.Keys && (chain in before ==> after[chain] == before[chain] + RulesFor(rules, chain))
  }

  lemma FilledOne(t: Table, after: Table, rules: seq<Hook>, chain: string)
    requires rules != [] && rules[0].builtin in t
    requires Filled(t[rules[0].builtin := t[rules[0].builtin] + [rules[0].rule]], after, rules[1..], chain)
    ensures Filled(t, after, rules, chain)
  {
  }

  lemma {:induction false} FillPhase(t: Table, rules: seq<Hook>, chain: string)
    requires forall h :: h in rules ==> h.builtin in t
    ensures Filled(t, DoAll(t, Filling(rules)), rules, chain)
    decreases |rules|
  {
    if rules != [] {
      var h := rules[0];
      assert h in rules;
      FillUnroll(t, rules);
      FillPhase(t[h.builtin := t[h.builtin] + [h.rule]], rules[1..], chain);
      FilledOne(t, DoAll(t, Filling(rules)), rules, chain);
    }
  }

  /** Adding jumps keeps every rule and every chain that gets none. */
  ghost predicate Grows(before: Table, after: Table, jumps: seq<Hook>) {
    && after.Keys == before.Keys
    && (forall chain, r :: chain in before && r in before[chain] ==> r in after[chain])
    && (forall chain :: chain in before && (forall h :: h in jumps ==> h.builtin != chain) ==>
          after[chain] == before[chain])
  }

  lemma JoinGrows(t: Table, h: Hook)
    requires h.builtin in t
    ensures var after := Do(t, Join(h.builtin, h.rule)); Grows(t, after, [h]) && h.rule in after[h.builtin]
  {
  }

  lemma {:induction false} JoinPhase(t: Table, jumps: seq<Hook>)
    requires forall h :: h in jumps ==> h.builtin in t
    ensures var after := DoAll(t, Joining(jumps));
            Grows(t, after, jumps) && forall h :: h in jumps ==> h.rule in after[h.builtin]
    decreases |jumps|
  {
    if jumps != [] {
      var h, rest := jumps[0], jumps[1..];
      assert h in jumps;
      var next := Do(t, Join(h.builtin, h.rule));
      assert Joining(jumps)[1..] == Joining(rest);
      assert DoAll(t, Joining(jumps)) == DoAll(next, Joining(rest));
      JoinGrows(t, h);
      JoinPhase(next, rest);
    }
  }

  ghost predicate Complete(t: Table, c: Chains) {
    forall n :: n in c.names ==> n in t && t[n] == RulesFor(c.rules, n)
  }

  lemma FilledComplete(t: Table, c: Chains)
    requires WellFormed(c)
    ensures var after := DoAll(t, Emptying(c.names) + Filling(c.rules));
            && Complete(after, c)
            && forall chain :: chain !in c.names ==>
                 (chain in after <==> chain in t) && (chain in t ==> after[chain] == t[chain])
  {
    var emptied := DoAll(t, Emptying(c.names));
    DoAllAppend(t, Emptying(c.names), Filling(c.rules));
    EmptyPhase(t, c.names);
    forall chain
      ensures DoAll(emptied, Filling(c.rules)).Keys == emptied.Keys
      ensures chain in emptied ==>
        DoAll(emptied, Filling(c.rules))[chain] == emptied[chain] + RulesFor(c.rules, chain)
      ensures chain !in c.names ==> RulesFor(c.rules, chain) == []
    {
      FillPhase(emptied, c.rules, chain);
      if chain !in c.names {
        NoRulesFor(c.rules, chain);
      }
    }
  }

  lemma {:induction false} NoRulesFor(rules: seq<Hook>, chain: string)
    requires forall h :: h in rules ==> h.builtin != chain
    ensures RulesFor(rules, chain) == []
  {
    if rules != [] {
      assert rules[0] in rules;
      NoRulesFor(rules[1..], chain);
    }
  }

  /**
   From any recoverable table, up ends with each chain holding exactly its
   rules and exactly one jump of each kind, and leaves foreign rules alone.
   */
  lemma UpInstalls(t: Table, c: Chains)
    requires WellFormed(c) && Recoverable(t, c)
    ensures var after := DoAll(t, Up(c));
            && Complete(after, c)
            && Recoverable(after, c)
            && (forall h :: h in c.jumps ==> Count(after[h.builtin], h.rule) == 1)
            && SameForeign(t, after, c)
  {
    var filled := DoAll(t, Emptying(c.names) + Filling(c.rules));
    FilledComplete(t, c);
    DoAllAppend(t, Emptying(c.names) + Filling(c.rules), Joining(c.jumps));
    JoinPhase(filled, c.jumps);
    UpDownOwn(c);
    CutOffRecoverable(t, c, Up(c));
  }

  /** The rules in front of a jump, none when it is not there and goes to the top. */
  function InFront(rules: seq<Rule>, r: Rule): (front: seq<Rule>)
    ensures front == [] <==> r !in rules || rules[0] == r
  {
    if r !in rules || rules[0] == r then [] else [rules[0]] + InFront(rules[1..], r)
  }

  /** The rules behind it, all when it is not there. */
  function Behind(rules: seq<Rule>, r: Rule): (back: seq<Rule>)
    ensures r in rules ==> rules == InFront(rules, r) + [r] + back
  {
    if r !in rules then rules else if rules[0] == r then rules[1..] else Behind(rules[1..], r)
  }

  /** A jump that was there kept its place; one that was missing is at the top. */
  predicate Placed(before: Table, after: Table, h: Hook) {
    && h.builtin in before && h.builtin in after
    && after[h.builtin] == InFront(before[h.builtin], h.rule) + [h.rule] + Behind(before[h.builtin], h.rule)
  }

  /** It is the only jump of its built-in chain. */
  ghost predicate Alone(jumps: seq<Hook>, h: Hook) {
    && (forall g :: g in jumps && g.builtin == h.builtin ==> g == h)
    && (forall i, j :: 0 <= i < j < |jumps| ==> jumps[i] != jumps[j])
  }

  lemma AloneRest(jumps: seq<Hook>, h: Hook)
    requires jumps != [] && Alone(jumps, h)
    ensures Alone(jumps[1..], h)
    ensures jumps[0] == h ==> forall g :: g in jumps[1..] ==> g.builtin != h.builtin
  {
    assert forall i :: 0 <= i < |jumps| - 1 ==> jumps[1..][i] == jumps[i + 1];
  }

  lemma JoinUnroll(t: Table, jumps: seq<Hook>)
    requires jumps != []
    ensures DoAll(t, Joining(jumps)) == DoAll(Do(t, Join(jumps[0].builtin, jumps[0].rule)), Joining(jumps[1..]))
  {
    assert Joining(jumps)[1..] == Joining(jumps[1..]);
  }

  /** What adding a jump does to a built-in chain: its own is placed, another chain stays. */
  lemma JoinOne(t: Table, g: Hook, h: Hook)
    requires h.builtin in t && g.builtin in t
    ensures var next := Do(t, Join(g.builtin, g.rule));
            && next.Keys == t.Keys
            && (g == h ==> Placed(t, next, h))
            && (g.builtin != h.builtin ==> next[h.builtin] == t[h.builtin])
  {
  }

  lemma {:induction false} JoinedPlaced(t: Table, jumps: seq<Hook>, h: Hook)
    requires h in jumps && Alone(jumps, h) && (forall g :: g in jumps ==> g.builtin in t)
    ensures Placed(t, DoAll(t, Joining(jumps)), h)
    decreases |jumps|
  {
    assert jumps[0] in jumps;
    JoinUnroll(t, jumps);
    JoinOne(t, jumps[0], h);
    AloneRest(jumps, h);
    var next := Do(t, Join(jumps[0].builtin, jumps[0].rule));
    if jumps[0] == h {
      JoinPhase(next, jumps[1..]);
    } else {
      JoinedPlaced(next, jumps[1..], h);
    }
  }

  /**
   From any recoverable table, up leaves a jump that is the only one of its
   built-in chain where it stood, or puts it at the top. It ends up first
   exactly when it was missing or first.
   */
  lemma UpJumpsFirstIff(t: Table, c: Chains, h: Hook)
    requires WellFormed(c) && Recoverable(t, c) && h in c.jumps && Alone(c.jumps, h)
    ensures var after := DoAll(t, Up(c));
            && Placed(t, after, h)
            && (after[h.builtin][0] == h.rule <==> h.rule !in t[h.builtin] || t[h.builtin][0] == h.rule)
  {
    var filled := DoAll(t, Emptying(c.names) + Filling(c.rules));
    FilledComplete(t, c);
    DoAllAppend(t, Emptying(c.names) + Filling(c.rules), Joining(c.jumps));
    JoinedPlaced(filled, c.jumps, h);
  }

  /** The order in which a built-in chain decides once our jump is in it, given what our chain decides. */
  function InTurn(t: Table, rules: seq<Rule>, h: Hook, own: Option<Target>, p: Packet, depth: nat): Option<Target> {
    var front := Walk(t, InFront(rules, h.rule), p, depth);
    if front.Some? then front
    else if Applies(h.rule, p) && own.Some? then own
    else Walk(t, Behind(rules, h.rule), p, depth)
  }

  /** After up, the rules in front of the jump decide, then our chain, then those behind. */
  lemma DecidesInTurn(t: Table, c: Chains, h: Hook, p: Packet, depth: nat)
    requires WellFormed(c) && Recoverable(t, c) && h in c.jumps && Alone(c.jumps, h)
    requires depth > 0 && forall r :: r in RulesFor(c.rules, h.rule.target.chain) ==> !r.target.Jump?
    ensures var after := DoAll(t, Up(c));
            && h.builtin in after
            && Walk(after, after[h.builtin], p, depth) ==
                 InTurn(after, t[h.builtin], h, Decide(RulesFor(c.rules, h.rule.target.chain), p), p, depth)
  {
    var after, front, back := DoAll(t, Up(c)), InFront(t[h.builtin], h.rule), Behind(t[h.builtin], h.rule);
    UpInstalls(t, c);
    UpJumpsFirstIff(t, c, h);
    Regroup(front, [h.rule], back);
    WalkAppend(after, front, [h.rule] + back, p, depth);
    WalkJumpFirst(after, h.rule, back, p, depth);
  }

  /** Removing jumps keeps the chains and adds no rule. */
  ghost predicate Shrinks(before: Table, after: Table) {
    after.Keys == before.Keys && forall chain, r :: chain in after && r in after[chain] ==> r in before[chain]
  }

  lemma LeaveShrinks(t: Table, h: Hook)
    requires h.builtin in t && Count(t[h.builtin], h.rule) <= 1
    ensures var after := Do(t, Leave(h.builtin, h.rule)); Shrinks(t, after) && h.rule !in after[h.builtin]
  {
  }

  lemma {:induction false} LeavePhase(t: Table, c: Chains, jumps: seq<Hook>)
    requires WellFormed(c) && Recoverable(t, c) && forall h :: h in jumps ==> h in c.jumps
    ensures var after := DoAll(t, Leaving(jumps));
            Shrinks(t, after) && forall h :: h in jumps ==> h.rule !in after[h.builtin]
    decreases |jumps|
  {
    if jumps != [] {
      var h, rest := jumps[0], jumps[1..];
      assert h in jumps;
      var next := Do(t, Leave(h.builtin, h.rule));
      assert Leaving(jumps)[1..] == Leaving(rest);
      assert DoAll(t, Leaving(jumps)) == DoAll(next, Leaving(rest));
      LeaveStep(t, c, h);
      LeaveShrinks(t, h);
      LeavePhase(next, c, rest);
    }
  }

  /** A rule outside the named chains jumps to this one. */
  ghost predicate Pointed(t: Table, names: seq<string>, n: string) {
    exists chain, r :: chain in t && chain !in names && r in t[chain] && r.target == Jump(n)
  }

  /** Chains outside the names are as they were. */
  ghost predicate SameOutside(before: Table, after: Table, names: seq<string>) {
    forall chain :: chain !in names ==>
      (chain in after <==> chain in before) && (chain in before ==> after[chain] == before[chain])
  }

  /** A named chain is gone, or empty and pointed to. */
  ghost predicate ClearedOf(before: Table, after: Table, names: seq<string>, n: string) {
    (n in after <==> n in before && Pointed(before, names, n)) && (n in after ==> after[n] == [])
  }

  lemma ReferencedOutside(t: Table, names: seq<string>, n: string)
    requires Flat(t, names) && n in names
    ensures Referenced(t, n) <==> Pointed(t, names, n)
  {
    if Referenced(t, n) {
      var chain :| chain in t && exists r: Rule :: r in t[chain] && r.target == Jump(n);
      var r: Rule :| r in t[chain] && r.target == Jump(n);
      assert OwnRule(names, r);
    }
  }

  lemma SamePointed(a: Table, b: Table, names: seq<string>, n: string)
    requires SameOutside(a, b, names)
    ensures Pointed(a, names, n) <==> Pointed(b, names, n)
  {
  }

  lemma ClearOne(t: Table, name: string, names: seq<string>)
    requires Flat(t, names) && name in names
    ensures var after := Do(Do(t, Wipe(name)), Discard(name));
            && SameOutside(t, after, names) && Flat(after, names) && ClearedOf(t, after, names, name)
            && forall n :: n in names && n != name ==> (n in after <==> n in t) && (n in t ==> after[n] == t[n])
  {
    var wiped := Do(t, Wipe(name));
    ReferencedOutside(wiped, names, name);
    SamePointed(t, wiped, names, name);
  }

  lemma ClearUnroll(t: Table, names: seq<string>)
    requires names != []
    ensures DoAll(t, Clearing(names)) == DoAll(Do(Do(t, Wipe(names[0])), Discard(names[0])), Clearing(names[1..]))
  {
    assert Clearing(names)[1..][1..] == Clearing(names[1..]);
    assert Clearing(names)[0] == Wipe(names[0]) && Clearing(names)[1..][0] == Discard(names[0]);
  }

  lemma {:induction false} ClearPhase(t: Table, todo: seq<string>, names: seq<string>, n: string)
    requires Flat(t, names) && (forall x :: x in todo ==> x in names) && n in names
    requires forall i, j :: 0 <= i < j < |todo| ==> todo[i] != todo[j]
    ensures var after := DoAll(t, Clearing(todo));
            && SameOutside(t, after, names)
            && (n in todo ==> ClearedOf(t, after, names, n))
            && (n !in todo ==> (n in after <==> n in t) && (n in t ==> after[n] == t[n]))
    decreases |todo|
  {
    if todo != [] {
      var gone := Do(Do(t, Wipe(todo[0])), Discard(todo[0]));
      ClearUnroll(t, todo);
      assert todo[0] in todo;
      assert forall i :: 0 <= i < |todo| - 1 ==> todo[1..][i] == todo[i + 1];
      ClearOne(t, todo[0], names);
      SamePointed(t, gone, names, n);
      ClearPhase(gone, todo[1..], names, n);
    }
  }

  /** A rule outside our chains that jumps to this one and is not one of our jumps. */
  ghost predicate Strayed(t: Table, c: Chains, n: string) {
    exists chain, r ::
      chain in t && chain !in c.names && r in t[chain] && r.target == Jump(n) && Hook(chain, r) !in c.jumps
  }

  /** The table once our jumps are out: everything else outside our chains is there, in order. */
  lemma LeftForeign(t: Table, c: Chains)
    requires WellFormed(c) && Recoverable(t, c)
    ensures var left := DoAll(t, Leaving(c.jumps));
            && left.Keys == t.Keys && (Flat(t, c.names) ==> Flat(left, c.names))
            && forall chain :: chain in t && chain !in c.names ==>
                 left[chain] == Foreign(OwnAt(c.jumps, chain), t[chain])
  {
    var left := DoAll(t, Leaving(c.jumps));
    LeavePhase(t, c, c.jumps);
    UpDownOwn(c);
    CutOffRecoverable(t, c, Leaving(c.jumps));
    forall chain | chain in t && chain !in c.names ensures left[chain] == Foreign(OwnAt(c.jumps, chain), t[chain]) {
      forall r | r in left[chain] ensures r !in OwnAt(c.jumps, chain) {
        assert Hook(chain, r).builtin == chain;
      }
      AllForeign(OwnAt(c.jumps, chain), left[chain]);
    }
  }

  lemma StrayedLeft(t: Table, left: Table, c: Chains, n: string)
    requires left.Keys == t.Keys
    requires forall chain :: chain in t && chain !in c.names ==> left[chain] == Foreign(OwnAt(c.jumps, chain), t[chain])
    ensures Pointed(left, c.names, n) <==> Strayed(t, c, n)
  {
    if Pointed(left, c.names, n) {
      var chain, r :| chain in left && chain !in c.names && r in left[chain] && r.target == Jump(n);
      assert r in t[chain] && Hook(chain, r) !in c.jumps;
    }
    if Strayed(t, c, n) {
      var chain, r :| chain in t && chain !in c.names && r in t[chain] && r.target == Jump(n)
        && Hook(chain, r) !in c.jumps;
      assert r in left[chain];
    }
  }

  /**
   What down leaves of any recoverable table: outside our chains exactly the
   rules that are not our jumps, in their order; and of our chains exactly
   those some other rule still jumps to, empty.
   */
  lemma DownLeaves(t: Table, c: Chains)
    requires WellFormed(c) && Recoverable(t, c) && Flat(t, c.names)
    ensures var after := DoAll(t, Down(c));
            && (forall n :: n in c.names ==>
                  (n in after <==> n in t && Strayed(t, c, n)) && (n in after ==> after[n] == []))
            && (forall chain :: chain !in c.names ==>
                  && (chain in after <==> chain in t)
                  && (chain in t ==> after[chain] == Foreign(OwnAt(c.jumps, chain), t[chain])))
  {
    var left := DoAll(t, Leaving(c.jumps));
    DoAllAppend(t, Leaving(c.jumps), Clearing(c.names));
    LeftForeign(t, c);
    forall n | n in c.names
      ensures SameOutside(left, DoAll(left, Clearing(c.names)), c.names)
      ensures ClearedOf(left, DoAll(left, Clearing(c.names)), c.names, n)
      ensures Pointed(left, c.names, n) <==> Strayed(t, c, n)
    {
      ClearPhase(left, c.names, c.names, n);
      StrayedLeft(t, left, c, n);
    }
    if c.names == [] {
      assert Clearing(c.names) == [];
    }
  }

  /** Every rule outside our chains that jumps to one that is there is one of our jumps. */
  ghost predicate NoStray(t: Table, c: Chains) {
    forall chain, r ::
      chain in t && chain !in c.names && r in t[chain] && OwnRule(c.names, r) && r.target.chain in t ==>
        Hook(chain, r) in c.jumps
  }

  /** Down removes all our chains exactly when no other rule jumps to one. */
  lemma DownRemovesIff(t: Table, c: Chains)
    requires WellFormed(c) && Recoverable(t, c) && Flat(t, c.names)
    ensures (forall n :: n in c.names ==> n !in DoAll(t, Down(c))) <==> NoStray(t, c)
  {
    DownLeaves(t, c);
    if n :| n in c.names && n in DoAll(t, Down(c)) {
      var chain, r :| chain in t && chain !in c.names && r in t[chain] && r.target == Jump(n)
        && Hook(chain, r) !in c.jumps;
      assert OwnRule(c.names, r);
    } else {
      forall chain, r | chain in t && chain !in c.names && r in t[chain] && OwnRule(c.names, r) && r.target.chain in t
        ensures Hook(chain, r) in c.jumps
      {
        assert Hook(chain, r) !in c.jumps ==> Strayed(t, c, r.target.chain);
      }
    }
  }

  // ---- runs with other jumps ----

  /**
   A run cut off anywhere, of any set of chains with the same names, whatever
   its rules and jumps, leaves a table our next run can start from.
   */
  lemma {:induction false} OtherRunRecoverable(t: Table, c: Chains, other: Chains, steps: seq<Step>)
    requires WellFormed(c) && WellFormed(other) && other.names == c.names
    requires Recoverable(t, c) && Flat(t, c.names) && forall s :: s in steps ==> OwnStep(other, s)
    ensures Recoverable(DoAll(t, steps), c) && Flat(DoAll(t, steps), c.names)
    decreases |steps|
  {
    if steps != [] {
      assert steps[0] in steps;
      OtherStepRecoverable(t, c, other, steps[0]);
      OtherRunRecoverable(Do(t, steps[0]), c, other, steps[1..]);
    }
  }

  lemma OtherStepRecoverable(t: Table, c: Chains, other: Chains, s: Step)
    requires WellFormed(c) && WellFormed(other) && other.names == c.names
    requires Recoverable(t, c) && Flat(t, c.names) && OwnStep(other, s)
    ensures Recoverable(Do(t, s), c) && Flat(Do(t, s), c.names)
  {
    if s.Leave? && s.builtin in t {
      forall h | h in c.jumps ensures Count(Strike(t[s.builtin], s.rule), h.rule) <= Count(t[s.builtin], h.rule) {
        if h.rule != s.rule { StrikeOther(t[s.builtin], s.rule, h.rule); }
      }
      assert Hook(s.builtin, s.rule).builtin !in c.names;
    }
  }

  /** All jumps to our chains from outside them are our jumps. */
  ghost predicate OnlyOwn(t: Table, c: Chains) {
    forall chain, r :: chain in t && chain !in c.names && r in t[chain] && OwnRule(c.names, r) ==>
      Hook(chain, r) in c.jumps
  }

  lemma OwnStepOnlyOwn(t: Table, c: Chains, s: Step)
    requires WellFormed(c) && OnlyOwn(t, c) && OwnStep(c, s)
    ensures OnlyOwn(Do(t, s), c)
  {
  }

  /** Runs with our jumps, whatever their rules and wherever cut off, leave no other, so down removes all our chains. */
  lemma {:induction false} OwnRunsRemovable(t: Table, c: Chains, steps: seq<Step>)
    requires WellFormed(c) && Recoverable(t, c) && Flat(t, c.names) && OnlyOwn(t, c)
    requires forall s :: s in steps ==> OwnStep(c, s)
    ensures OnlyOwn(DoAll(t, steps), c)
    ensures forall n :: n in c.names ==> n !in DoAll(DoAll(t, steps), Down(c))
    decreases |steps|
  {
    if steps == [] {
      DownRemovesIff(t, c);
    } else {
      assert steps[0] in steps;
      OwnStepOnlyOwn(t, c, steps[0]);
      OtherStepRecoverable(t, c, c, steps[0]);
      OwnRunsRemovable(Do(t, steps[0]), c, steps[1..]);
    }
  }

  // ---- no packet past half-filled chains ----

  /** Some rule outside our chains jumps to one of them, ours or left by a run with other jumps. */
  ghost predicate Jumped(t: Table, names: seq<string>) {
    exists chain, r :: chain in t && chain !in names && r in t[chain] && OwnRule(names, r)
  }

  /** A table in which every chain of ours that is jumped to holds all its rules. */
  ghost predicate Guarded(t: Table, c: Chains) {
    forall n :: n in c.names && Pointed(t, c.names, n) ==> n in t && t[n] == RulesFor(c.rules, n)
  }

  lemma {:induction false} ChainStepsOnly(t: Table, c: Chains, steps: seq<Step>)
    requires forall s :: s in steps ==> OwnStep(c, s) && (s.Empty? || s.Fill?)
    ensures forall chain :: chain !in c.names ==>
      (chain in DoAll(t, steps) <==> chain in t) && (chain in t ==> DoAll(t, steps)[chain] == t[chain])
    decreases |steps|
  {
    if steps != [] {
      assert steps[0] in steps;
      ChainStepsOnly(Do(t, steps[0]), c, steps[1..]);
    }
  }

  lemma {:induction false} JoinStepsOnly(t: Table, c: Chains, steps: seq<Step>)
    requires WellFormed(c) && Complete(t, c)
    requires forall s :: s in steps ==> OwnStep(c, s) && s.Join?
    ensures Complete(DoAll(t, steps), c)
    decreases |steps|
  {
    if steps != [] {
      assert steps[0] in steps;
      assert Hook(steps[0].builtin, steps[0].rule) in c.jumps;
      JoinStepsOnly(Do(t, steps[0]), c, steps[1..]);
    }
  }

  lemma GuardedIfComplete(t: Table, c: Chains)
    requires !Jumped(t, c.names) || Complete(t, c)
    ensures Guarded(t, c)
  {
    if !Jumped(t, c.names) {
      forall n | n in c.names ensures !Pointed(t, c.names, n) {
        assert forall r: Rule :: r.target == Jump(n) ==> OwnRule(c.names, r);
      }
    }
  }

  lemma GuardedFromScratch(t: Table, c: Chains, k: nat)
    requires WellFormed(c) && k <= |Up(c)| && !Jumped(t, c.names)
    ensures Guarded(DoAll(t, Up(c)[..k]), c)
  {
    var chains := Emptying(c.names) + Filling(c.rules);
    var before := Up(c)[..k];
    UpDownOwn(c);
    if k <= |chains| {
      assert before == chains[..k];
      forall s | s in before ensures OwnStep(c, s) && (s.Empty? || s.Fill?) {
        assert s in Up(c) && s in chains;
      }
      ChainStepsOnly(t, c, before);
    } else {
      var joins := Joining(c.jumps)[..k - |chains|];
      assert before == chains + joins;
      FilledComplete(t, c);
      DoAllAppend(t, chains, joins);
      forall s | s in joins ensures OwnStep(c, s) && s.Join? {
        assert s in Joining(c.jumps);
      }
      JoinStepsOnly(DoAll(t, chains), c, joins);
    }
    GuardedIfComplete(DoAll(t, before), c);
  }

  lemma {:induction false} EmptyingFirst(names: seq<string>, k: nat)
    requires k <= |names|
    ensures |Emptying(names)| == |names| && Emptying(names)[..k] == Emptying(names[..k])
  {
    if k > 0 {
      EmptyingFirst(names[1..], k - 1);
      assert names[..k][1..] == names[1..][..k - 1];
    } else if names != [] {
      EmptyingFirst(names[1..], 0);
    }
  }

  /** Emptying a chain that is jumped to and has rules opens it. */
  lemma EmptiedUnguarded(t: Table, c: Chains, i: nat)
    requires i < |c.names| && Pointed(t, c.names, c.names[i]) && RulesFor(c.rules, c.names[i]) != []
    ensures i < |Up(c)| && !Guarded(DoAll(t, Up(c)[..i + 1]), c)
  {
    var n, first := c.names[i], c.names[..i + 1];
    EmptyingFirst(c.names, i + 1);
    assert Up(c)[..i + 1] == Emptying(first);
    EmptyPhase(t, first);
    assert n in first && n in c.names;
    SamePointed(t, DoAll(t, Emptying(first)), c.names, n);
  }

  /**
   Every table on the way of an up is guarded exactly when nothing jumped to
   our chains to begin with: a chain that is jumped to stands empty from the
   step that empties it until it is filled.
   */
  lemma GuardedIffNoJump(t: Table, c: Chains)
    requires WellFormed(c) && forall n :: n in c.names ==> RulesFor(c.rules, n) != []
    ensures (forall k :: 1 <= k <= |Up(c)| ==> Guarded(DoAll(t, Up(c)[..k]), c)) <==> !Jumped(t, c.names)
  {
    if Jumped(t, c.names) {
      var chain, r :| chain in t && chain !in c.names && r in t[chain] && OwnRule(c.names, r);
      var i :| 0 <= i < |c.names| && c.names[i] == r.target.chain;
      assert r.target == Jump(c.names[i]);
      EmptiedUnguarded(t, c, i);
    } else {
      forall k | 1 <= k <= |Up(c)| ensures Guarded(DoAll(t, Up(c)[..k]), c) {
        GuardedFromScratch(t, c, k);
      }
    }
  }
}
