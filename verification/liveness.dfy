/**
 Liveness of locals over the label graph of a function (vc/passes/infer.cc:1361-1409, 4386-4464).
 */
module Liveness {

  type Name = string

  /** A statement: the local it assigns, if its first child is one, and every local it mentions. */
  datatype Stmt = Stmt(target: Target, mentions: set<Name>)

  datatype Target = NoTarget | Assigns(name: Name)

  /** The end of a label: the locals it mentions and where it goes. */
  datatype Term = Return(mentions: set<Name>) | Jump(to: Name) | Cond(mentions: set<Name>, onTrue: Name, onFalse: Name)

  datatype Label = Label(name: Name, body: seq<Stmt>, term: Term)

  predicate TermMentions(term: Term, v: Name) {
    !term.Jump? && v in term.mentions
  }

  // ---------------------------------------------------------------- uses, definitions and kills

  const LOCAL: Name := "local$"

  /** `v` is assigned in `body`. */
  predicate Assigned(body: seq<Stmt>, v: Name) {
    exists i :: 0 <= i < |body| && body[i].target == Assigns(v)
  }

  predicate Mentioned(body: seq<Stmt>, v: Name) {
    exists i :: 0 <= i < |body| && v in body[i].mentions
  }

  /** Mentioned, and not a declared local that the label assigns itself. */
  predicate Used(l: Label, v: Name) {
    (Mentioned(l.body, v) || TermMentions(l.term, v)) && !(LOCAL <= v && Assigned(l.body, v))
  }

  method CollectDefs(body: seq<Stmt>) returns (defs: set<Name>)
    ensures forall v :: v in defs <==> LOCAL <= v && Assigned(body, v)
  {
    defs := {};
    for i := 0 to |body|
      invariant forall v :: v in defs <==> LOCAL <= v && Assigned(body[..i], v)
    {
      AssignedNext(body, i);
      var t := body[i].target;
      if t.Assigns? && LOCAL <= t.name {
        defs := defs + {t.name};
      }
    }
    assert body[..|body|] == body;
  }

  method CollectKills(body: seq<Stmt>) returns (kills: set<Name>)
    ensures forall v :: v in kills <==> Assigned(body, v)
  {
    kills := {};
    for i := 0 to |body|
      invariant forall v :: v in kills <==> Assigned(body[..i], v)
    {
      AssignedNext(body, i);
      if body[i].target.Assigns? {
        kills := kills + {body[i].target.name};
      }
    }
    assert body[..|body|] == body;
  }

  method CollectUses(l: Label, defs: set<Name>) returns (uses: set<Name>)
    requires forall v :: v in defs <==> LOCAL <= v && Assigned(l.body, v)
    ensures forall v :: v in uses <==> Used(l, v)
  {
    uses := {};
    for i := 0 to |l.body|
      invariant forall v :: v in uses <==> Mentioned(l.body[..i], v)
    {
      MentionedNext(l.body, i);
      uses := uses + l.body[i].mentions;
    }
    assert l.body[..|l.body|] == l.body;
    if !l.term.Jump? {
      uses := uses + l.term.mentions;
    }
    uses := uses - defs;
  }

  lemma AssignedNext(body: seq<Stmt>, i: nat)
    requires i < |body|
    ensures forall v :: Assigned(body[..i + 1], v) <==> Assigned(body[..i], v) || body[i].target == Assigns(v)
  {
    forall v ensures Assigned(body[..i + 1], v) <==> Assigned(body[..i], v) || body[i].target == Assigns(v) {
      if Assigned(body[..i], v) {
        var k :| 0 <= k < i && body[..i][k].target == Assigns(v);
        assert body[..i + 1][k].target == Assigns(v);
      }
      if body[i].target == Assigns(v) {
        assert body[..i + 1][i].target == Assigns(v);
      }
      if Assigned(body[..i + 1], v) {
        var k :| 0 <= k < i + 1 && body[..i + 1][k].target == Assigns(v);
        assert k < i ==> body[..i][k].target == Assigns(v);
      }
    }
  }

  lemma MentionedNext(body: seq<Stmt>, i: nat)
    requires i < |body|
    ensures forall v :: Mentioned(body[..i + 1], v) <==> Mentioned(body[..i], v) || v in body[i].mentions
  {
    forall v ensures Mentioned(body[..i + 1], v) <==> Mentioned(body[..i], v) || v in body[i].mentions {
      if Mentioned(body[..i], v) {
        var k :| 0 <= k < i && v in body[..i][k].mentions;
        assert v in body[..i + 1][k].mentions;
      }
      if v in body[i].mentions {
        assert v in body[..i + 1][i].mentions;
      }
      if Mentioned(body[..i + 1], v) {
        var k :| 0 <= k < i + 1 && v in body[..i + 1][k].mentions;
        assert k < i ==> v in body[..i][k].mentions;
      }
    }
  }

  // ---------------------------------------------------------------- the label graph

  /** The label that a name stands for: the last one that bears it. */
  predicate Named(labels: seq<Label>, name: Name, i: int) {
    && 0 <= i < |labels| && labels[i].name == name
    && forall k | i < k < |labels| :: labels[k].name != name
  }

  predicate GoesTo(term: Term, name: Name) {
    (term.Jump? && term.to == name) || (term.Cond? && (term.onTrue == name || term.onFalse == name))
  }

  /** Control may pass from label `i` to label `k`; names that no label bears lead nowhere. */
  predicate Edge(labels: seq<Label>, i: int, k: int) {
    0 <= i < |labels| && 0 <= k < |labels| && GoesTo(labels[i].term, labels[k].name) && Named(labels, labels[k].name, k)
  }

  predicate Entry(at: map<Name, int>, name: Name, i: int) {
    name in at && at[name] == i
  }

  method Index(labels: seq<Label>) returns (at: map<Name, int>)
    ensures forall name, i :: Entry(at, name, i) <==> Named(labels, name, i)
  {
    at := map[];
    for n := 0 to |labels|
      invariant forall name, i :: Entry(at, name, i) <==> Named(labels[..n], name, i)
    {
      NamedNext(labels, n);
      ghost var before := at;
      at := at[labels[n].name := n];
      forall name, i ensures Entry(at, name, i) <==> Named(labels[..n + 1], name, i) {
        assert Entry(before, name, i) <==> Named(labels[..n], name, i);
      }
    }
    assert labels[..|labels|] == labels;
  }

  lemma NamedNext(labels: seq<Label>, n: nat)
    requires n < |labels|
    ensures forall name, i :: Named(labels[..n + 1], name, i) <==>
      if name == labels[n].name then i == n else Named(labels[..n], name, i)
  {
    forall name, i
      ensures Named(labels[..n + 1], name, i) <==> if name == labels[n].name then i == n else Named(labels[..n], name, i)
    {
      assert labels[..n + 1][n] == labels[n];
    }
  }

  ghost predicate Successors(labels: seq<Label>, i: int, succ: seq<int>) {
    forall k :: k in succ <==> Edge(labels, i, k)
  }

  method Succ(labels: seq<Label>, at: map<Name, int>, i: int) returns (succ: seq<int>)
    requires 0 <= i < |labels| && forall name, i :: Entry(at, name, i) <==> Named(labels, name, i)
    ensures Successors(labels, i, succ)
  {
    succ := [];
    match labels[i].term {
      case Return(_) =>
      case Jump(to) =>
        if to in at {
          succ := [at[to]];
        }
      case Cond(_, t, f) =>
        if t in at {
          succ := succ + [at[t]];
        }
        if f in at {
          succ := succ + [at[f]];
        }
    }
    forall k ensures k in succ <==> Edge(labels, i, k) {
      if Edge(labels, i, k) {
        assert Entry(at, labels[k].name, k);
      }
      if k in succ {
        var name :| name in at && at[name] == k && GoesTo(labels[i].term, name);
        assert Entry(at, name, k);
      }
    }
  }

  // ---------------------------------------------------------------- liveness

  /** What the fixpoint works on: successors, uses and kills of every label. */
  datatype Flow = Flow(succ: seq<seq<int>>, uses: seq<set<Name>>, kills: seq<set<Name>>)

  ghost predicate Valid(fl: Flow) {
    && |fl.succ| == |fl.uses| == |fl.kills|
    && forall j, k | 0 <= j < |fl.succ| && k in fl.succ[j] :: 0 <= k < |fl.succ|
  }

  /** A path to a use of `v` on which no earlier label kills it. */
  ghost predicate LivePath(fl: Flow, path: seq<int>, v: Name)
    requires Valid(fl)
  {
    && path != [] && (forall i | 0 <= i < |path| :: 0 <= path[i] < |fl.succ|)
    && (forall i | 0 <= i < |path| - 1 :: path[i + 1] in fl.succ[path[i]] && v !in fl.kills[path[i]])
    && v in fl.uses[path[|path| - 1]]
  }

  ghost predicate Live(fl: Flow, j: int, v: Name)
    requires Valid(fl)
  {
    exists path :: LivePath(fl, path, v) && path[0] == j
  }

  /** `v` is live on entry to some successor of `j`. */
  ghost predicate Flows(fl: Flow, ins: seq<set<Name>>, j: int, v: Name)
    requires Valid(fl) && |ins| == |fl.succ| && 0 <= j < |ins|
  {
    exists k :: k in fl.succ[j] && v in ins[k]
  }

  lemma UseIsLive(fl: Flow, j: int, v: Name)
    requires Valid(fl) && 0 <= j < |fl.succ| && v in fl.uses[j]
    ensures Live(fl, j, v)
  {
    assert LivePath(fl, [j], v);
  }

  lemma LiveBefore(fl: Flow, j: int, k: int, v: Name)
    requires Valid(fl) && 0 <= j < |fl.succ| && k in fl.succ[j] && v !in fl.kills[j] && Live(fl, k, v)
    ensures Live(fl, j, v)
  {
    var path :| LivePath(fl, path, v) && path[0] == k;
    assert LivePath(fl, [j] + path, v);
  }

  // ---------------------------------------------------------------- invariants of the loops

  ghost predicate Sized(fl: Flow, ins: seq<set<Name>>, outs: seq<set<Name>>) {
    Valid(fl) && |ins| == |outs| == |fl.succ|
  }

  /** Everything found so far is live, and is what the equations give or less. */
  ghost predicate Rising(fl: Flow, ins: seq<set<Name>>, outs: seq<set<Name>>)
    requires Sized(fl, ins, outs)
  {
    && (forall j, v | 0 <= j < |ins| && v in ins[j] :: Live(fl, j, v))
    && (forall j, v | 0 <= j < |ins| && v in outs[j] :: Flows(fl, ins, j, v))
    && (forall j, v | 0 <= j < |ins| && v in ins[j] :: v in fl.uses[j] || (v !in fl.kills[j] && Flows(fl, ins, j, v)))
  }

  ghost predicate Solved(fl: Flow, ins: seq<set<Name>>, outs: seq<set<Name>>, j: int)
    requires Sized(fl, ins, outs) && 0 <= j < |ins|
  {
    && (forall v :: v in outs[j] <==> Flows(fl, ins, j, v))
    && (forall v :: v in ins[j] <==> v in fl.uses[j] || (v in outs[j] && v !in fl.kills[j]))
  }

  ghost function Names(uses: seq<set<Name>>): set<Name> {
    set j, v | 0 <= j < |uses| && v in uses[j] :: v
  }

  /** The entries that may still be added. */
  ghost function Missing(fl: Flow, ins: seq<set<Name>>, outs: seq<set<Name>>): set<(bool, int, Name)>
    requires Sized(fl, ins, outs)
  {
    set b, j, v | b in {false, true} && 0 <= j < |ins| && v in Names(fl.uses) && v !in (if b then ins[j] else outs[j]) ::
      (b, j, v)
  }

  lemma LiveIsNamed(fl: Flow, j: int, v: Name)
    requires Valid(fl) && Live(fl, j, v)
    ensures v in Names(fl.uses)
  {
    var path :| LivePath(fl, path, v) && path[0] == j;
    assert v in fl.uses[path[|path| - 1]];
  }

  /** What flows out of `j` only grows with the sets. */
  lemma FlowsMore(fl: Flow, ins: seq<set<Name>>, ins': seq<set<Name>>, j: int, v: Name)
    requires Valid(fl) && |ins| == |ins'| == |fl.succ| && 0 <= j < |ins| && Flows(fl, ins, j, v)
    requires forall k | 0 <= k < |ins| :: ins[k] <= ins'[k]
    ensures Flows(fl, ins', j, v)
  {
    var k :| k in fl.succ[j] && v in ins[k];
    assert k in fl.succ[j] && v in ins'[k];
  }

  /** One label's equations, applied to what is there, keep the invariant and add to both sets or leave them. */
  lemma RelaxRises(fl: Flow, ins: seq<set<Name>>, outs: seq<set<Name>>, j: int, nextOut: set<Name>, nextIn: set<Name>)
    requires Sized(fl, ins, outs) && Rising(fl, ins, outs) && 0 <= j < |ins|
    requires forall v :: v in nextOut <==> Flows(fl, ins, j, v)
    requires nextIn == fl.uses[j] + (nextOut - fl.kills[j])
    ensures outs[j] <= nextOut && ins[j] <= nextIn
    ensures Rising(fl, ins[j := nextIn], outs[j := nextOut])
    ensures nextOut <= Names(fl.uses) && nextIn <= Names(fl.uses)
  {
    var ins' := ins[j := nextIn];
    forall v | v in nextIn ensures Live(fl, j, v) {
      if v in fl.uses[j] {
        UseIsLive(fl, j, v);
      } else {
        var k :| k in fl.succ[j] && v in ins[k];
        LiveBefore(fl, j, k, v);
      }
    }
    forall v | v in nextIn ensures v in Names(fl.uses) {
      LiveIsNamed(fl, j, v);
    }
    forall v | v in nextOut ensures v in Names(fl.uses) {
      var k :| k in fl.succ[j] && v in ins[k];
      LiveIsNamed(fl, k, v);
    }
    forall i, v | 0 <= i < |ins| && Flows(fl, ins, i, v) ensures Flows(fl, ins', i, v) {
      FlowsMore(fl, ins, ins', i, v);
    }
  }

  lemma RelaxShrinks(fl: Flow, ins: seq<set<Name>>, outs: seq<set<Name>>, j: int, nextOut: set<Name>, nextIn: set<Name>)
    requires Sized(fl, ins, outs) && 0 <= j < |ins| && outs[j] <= nextOut && ins[j] <= nextIn
    requires nextOut <= Names(fl.uses) && nextIn <= Names(fl.uses)
    requires nextOut != outs[j] || nextIn != ins[j]
    ensures Missing(fl, ins[j := nextIn], outs[j := nextOut]) < Missing(fl, ins, outs)
  {
    var less, more := Missing(fl, ins[j := nextIn], outs[j := nextOut]), Missing(fl, ins, outs);
    if nextIn != ins[j] {
      var v :| v in nextIn && v !in ins[j];
      assert (true, j, v) in more && (true, j, v) !in less;
    } else {
      var v :| v in nextOut && v !in outs[j];
      assert (false, j, v) in more && (false, j, v) !in less;
    }
  }

  /** A solution of all equations holds everything that is live. */
  lemma {:induction false} SolutionIsComplete(fl: Flow, ins: seq<set<Name>>, outs: seq<set<Name>>, path: seq<int>, v: Name)
    requires Sized(fl, ins, outs) && forall j | 0 <= j < |ins| :: Solved(fl, ins, outs, j)
    requires LivePath(fl, path, v)
    ensures v in ins[path[0]]
    decreases |path|
  {
    var j := path[0];
    assert Solved(fl, ins, outs, j);
    if |path| > 1 {
      assert path[1] in fl.succ[path[0]];
      assert LivePath(fl, path[1..], v);
      SolutionIsComplete(fl, ins, outs, path[1..], v);
      assert Flows(fl, ins, j, v);
    }
  }

  // ---------------------------------------------------------------- the loops

  method Relax(fl: Flow, liveIn: array<set<Name>>, liveOut: array<set<Name>>, j: int) returns (changed: bool)
    requires Sized(fl, liveIn[..], liveOut[..]) && Rising(fl, liveIn[..], liveOut[..]) && 0 <= j < |fl.succ|
    requires liveIn != liveOut
    modifies liveIn, liveOut
    ensures Sized(fl, liveIn[..], liveOut[..]) && Rising(fl, liveIn[..], liveOut[..])
    ensures changed ==> Missing(fl, liveIn[..], liveOut[..]) < old(Missing(fl, liveIn[..], liveOut[..]))
    ensures !changed ==> liveIn[..] == old(liveIn[..]) && liveOut[..] == old(liveOut[..]) && Solved(fl, liveIn[..], liveOut[..], j)
  {
    ghost var ins, outs := liveIn[..], liveOut[..];
    var nextOut := {};
    for i := 0 to |fl.succ[j]|
      invariant liveIn[..] == ins && liveOut[..] == outs
      invariant forall v :: v in nextOut <==> exists k :: k in fl.succ[j][..i] && 0 <= k < |ins| && v in ins[k]
    {
      assert fl.succ[j][..i + 1] == fl.succ[j][..i] + [fl.succ[j][i]];
      assert fl.succ[j][i] in fl.succ[j];
      nextOut := nextOut + liveIn[fl.succ[j][i]];
    }
    assert fl.succ[j][..|fl.succ[j]|] == fl.succ[j];
    var nextIn := fl.uses[j] + (nextOut - fl.kills[j]);
    RelaxRises(fl, ins, outs, j, nextOut, nextIn);
    changed := nextOut != liveOut[j] || nextIn != liveIn[j];
    if changed {
      RelaxShrinks(fl, ins, outs, j, nextOut, nextIn);
      liveOut[j], liveIn[j] := nextOut, nextIn;
      assert liveIn[..] == ins[j := nextIn] && liveOut[..] == outs[j := nextOut];
    }
  }

  /** The whole fixpoint: it ends, and what it finds is what is live. */
  method Solve(fl: Flow) returns (liveIn: array<set<Name>>, liveOut: array<set<Name>>)
    requires Valid(fl)
    ensures liveIn.Length == liveOut.Length == |fl.succ|
    ensures forall j, v | 0 <= j < liveIn.Length :: v in liveIn[j] <==> Live(fl, j, v)
    ensures forall j, v | 0 <= j < liveIn.Length :: v in liveOut[j] <==> exists k :: k in fl.succ[j] && Live(fl, k, v)
  {
    var n := |fl.succ|;
    liveIn, liveOut := new set<Name>[n](_ => {}), new set<Name>[n](_ => {});
    var changed := true;
    while changed
      invariant Sized(fl, liveIn[..], liveOut[..]) && Rising(fl, liveIn[..], liveOut[..])
      invariant fresh(liveIn) && fresh(liveOut) && liveIn != liveOut
      invariant !changed ==> forall j | 0 <= j < n :: Solved(fl, liveIn[..], liveOut[..], j)
      decreases Missing(fl, liveIn[..], liveOut[..]), changed
    {
      ghost var ins, outs := liveIn[..], liveOut[..];
      changed := false;
      for j := n downto 0
        invariant Sized(fl, liveIn[..], liveOut[..]) && Rising(fl, liveIn[..], liveOut[..])
        invariant changed ==> Missing(fl, liveIn[..], liveOut[..]) < Missing(fl, ins, outs)
        invariant !changed ==> liveIn[..] == ins && liveOut[..] == outs
        invariant !changed ==> forall i | j <= i < n :: Solved(fl, ins, outs, i)
      {
        var here := Relax(fl, liveIn, liveOut, j);
        changed := changed || here;
      }
    }
    ghost var ins, outs := liveIn[..], liveOut[..];
    forall j, v | 0 <= j < n ensures v in liveIn[j] <==> Live(fl, j, v) {
      if Live(fl, j, v) {
        var path :| LivePath(fl, path, v) && path[0] == j;
        SolutionIsComplete(fl, ins, outs, path, v);
      }
    }
    forall j, v | 0 <= j < n ensures v in liveOut[j] <==> exists k :: k in fl.succ[j] && Live(fl, k, v) {
      assert Solved(fl, ins, outs, j);
    }
  }

  // ---------------------------------------------------------------- from labels to live locals

  /** A path through the labels to one that uses `v`, with no earlier label assigning it. */
  ghost predicate LabelPath(labels: seq<Label>, path: seq<int>, v: Name) {
    && path != [] && (forall i | 0 <= i < |path| :: 0 <= path[i] < |labels|)
    && (forall i | 0 <= i < |path| - 1 :: Edge(labels, path[i], path[i + 1]) && !Assigned(labels[path[i]].body, v))
    && Used(labels[path[|path| - 1]], v)
  }

  ghost predicate LiveAt(labels: seq<Label>, j: int, v: Name) {
    exists path :: LabelPath(labels, path, v) && path[0] == j
  }

  ghost predicate Describes(labels: seq<Label>, fl: Flow, n: int) {
    && 0 <= n <= |labels| && |fl.succ| == |fl.uses| == |fl.kills| == n
    && (forall j | 0 <= j < n :: Successors(labels, j, fl.succ[j]))
    && (forall j, v | 0 <= j < n :: v in fl.uses[j] <==> Used(labels[j], v))
    && (forall j, v | 0 <= j < n :: v in fl.kills[j] <==> Assigned(labels[j].body, v))
  }

  lemma SameLiveness(labels: seq<Label>, fl: Flow, j: int, v: Name)
    requires Describes(labels, fl, |labels|)
    ensures Valid(fl) && (Live(fl, j, v) <==> LiveAt(labels, j, v))
  {
    forall j, k | 0 <= j < |fl.succ| && k in fl.succ[j] ensures 0 <= k < |fl.succ| {
      assert Successors(labels, j, fl.succ[j]);
    }
    forall path ensures LivePath(fl, path, v) <==> LabelPath(labels, path, v) {
      if LivePath(fl, path, v) {
        forall i | 0 <= i < |path| - 1 ensures Edge(labels, path[i], path[i + 1]) {
          assert Successors(labels, path[i], fl.succ[path[i]]);
        }
      }
      if LabelPath(labels, path, v) {
        forall i | 0 <= i < |path| - 1 ensures path[i + 1] in fl.succ[path[i]] {
          assert Successors(labels, path[i], fl.succ[path[i]]);
        }
      }
    }
  }

  /** The label graph of a function, and the locals live on entry to and on exit from each label. */
  method LiveLocals(labels: seq<Label>) returns (liveIn: array<set<Name>>, liveOut: array<set<Name>>)
    ensures liveIn.Length == liveOut.Length == |labels|
    ensures forall j, v | 0 <= j < |labels| :: v in liveIn[j] <==> LiveAt(labels, j, v)
    ensures forall j, v | 0 <= j < |labels| :: v in liveOut[j] <==> exists k :: Edge(labels, j, k) && LiveAt(labels, k, v)
  {
    var at := Index(labels);
    var fl := Flow([], [], []);
    for j := 0 to |labels|
      invariant Describes(labels, fl, j)
    {
      var succ := Succ(labels, at, j);
      var defs := CollectDefs(labels[j].body);
      var uses := CollectUses(labels[j], defs);
      var kills := CollectKills(labels[j].body);
      fl := Flow(fl.succ + [succ], fl.uses + [uses], fl.kills + [kills]);
    }
    forall j, v ensures Valid(fl) && (Live(fl, j, v) <==> LiveAt(labels, j, v)) {
      SameLiveness(labels, fl, j, v);
    }
    liveIn, liveOut := Solve(fl);
    forall j, v | 0 <= j < |labels|
      ensures v in liveOut[j] <==> exists k :: Edge(labels, j, k) && LiveAt(labels, k, v)
    {
      assert Successors(labels, j, fl.succ[j]);
    }
  }
}
