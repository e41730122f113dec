/** A specification read the way its translation runs: a return demands its outcome and does not end the reading, and
    headers popped in a branch are back when the branch is over. The translation keeps the meaning of a specification
    exactly where this reading asks for the same as the one in which returns end it. */
module SpecRunOn {
  import opened Options
  import opened SpecLanguage
  import opened SpecMeaning
  import opened SpecTranslator
  import opened SpecPreservation

  /** What is asked of an observation: nothing satisfies it, or a demand on what was sent, if any, and the state
      left, if that is not ignored. */
  datatype Asked = Rejected | Asked(demand: Option<Demand>, final: Option<Store>)

  ghost predicate MeetsAny(seen: Observation, d: Option<Demand>) {
    d.Some? ==> Meets(seen, d.value)
  }

  ghost predicate Grants(a: Asked, state: set<Name>, seen: Observation) {
    a.Asked? && MeetsAny(seen, a.demand) && (a.final.Some? ==> SameState(state, a.final.value, seen.final))
  }

  /** What a reading in which returns end the specification asks. */
  ghost function AskedBy(r: Reading): (a: Asked) {
    match r
    case Fails => Rejected
    case Undefined => Rejected
    case Ignored => Asked(None, None)
    case Returns(d, s) => Asked(Some(d), Some(s))
    case Falls(s, _) => Asked(None, Some(s))
  }

  // ----- Two demands at once

  ghost predicate FieldsAgree(p: Sent, q: Sent) {
    && p.protocol == q.protocol && |p.fields| == |q.fields|
    && forall j :: 0 <= j < |p.fields| && p.fields[j].Some? && q.fields[j].Some? ==> p.fields[j] == q.fields[j]
  }

  ghost predicate Compatible(d: Demand, d': Demand) {
    && d.ports == d'.ports
    && (d.ports != [] ==> |d.headers| == |d'.headers|
                          && forall i :: 0 <= i < |d.headers| ==> FieldsAgree(d.headers[i], d'.headers[i]))
  }

  ghost function MergeFields(p: Sent, q: Sent): (r: Sent)
    requires |p.fields| == |q.fields|
  {
    Sent(p.protocol, seq(|p.fields|, j requires 0 <= j < |p.fields|
                                     => if p.fields[j].Some? then p.fields[j] else q.fields[j]))
  }

  ghost function Merge(d: Demand, d': Demand): (r: Demand)
    requires Compatible(d, d')
  {
    if d.ports == [] then d
    else Demand(d.ports, seq(|d.headers|, i requires 0 <= i < |d.headers| => MergeFields(d.headers[i], d'.headers[i])))
  }

  lemma {:induction false} MergeFits(h: Header, p: Sent, q: Sent)
    ensures SpecMeaning.Fits(h, p) && SpecMeaning.Fits(h, q) ==> FieldsAgree(p, q)
    ensures FieldsAgree(p, q) ==>
              (SpecMeaning.Fits(h, p) && SpecMeaning.Fits(h, q) <==> SpecMeaning.Fits(h, MergeFields(p, q)))
  {
    if FieldsAgree(p, q) && SpecMeaning.Fits(h, MergeFields(p, q)) {
      forall j | 0 <= j < |p.fields|
        ensures p.fields[j].Some? ==> h.fields[j] == p.fields[j].value
        ensures q.fields[j].Some? ==> h.fields[j] == q.fields[j].value
      {
        assert MergeFields(p, q).fields[j] == if p.fields[j].Some? then p.fields[j] else q.fields[j];
      }
    }
  }

  /** Both demands are met exactly where they are compatible and the merged one is met. */
  lemma {:induction false} MergeMeets(seen: Observation, d: Demand, d': Demand)
    ensures Meets(seen, d) && Meets(seen, d') <==> Compatible(d, d') && Meets(seen, Merge(d, d'))
  {
    if d.ports == d'.ports != [] && |d.headers| == |d'.headers| == |seen.headers| {
      forall i | 0 <= i < |d.headers|
        ensures SpecMeaning.Fits(seen.headers[i], d.headers[i]) && SpecMeaning.Fits(seen.headers[i], d'.headers[i]) ==>
                  FieldsAgree(d.headers[i], d'.headers[i])
        ensures FieldsAgree(d.headers[i], d'.headers[i]) ==>
                  (SpecMeaning.Fits(seen.headers[i], d.headers[i]) && SpecMeaning.Fits(seen.headers[i], d'.headers[i])
                   <==> SpecMeaning.Fits(seen.headers[i], MergeFields(d.headers[i], d'.headers[i])))
      {
        MergeFits(seen.headers[i], d.headers[i], d'.headers[i]);
      }
    }
  }

  /** Asking for a demand as well. */
  ghost function Join(d: Option<Demand>, a: Asked): (r: Asked) {
    if a.Rejected? || d.None? then a
    else if a.demand.None? then a.(demand := d)
    else if Compatible(d.value, a.demand.value) then a.(demand := Some(Merge(d.value, a.demand.value)))
    else Rejected
  }

  lemma {:induction false} JoinMeets(seen: Observation, d: Option<Demand>, a: Asked)
    ensures var r := Join(d, a);
            && (r.Asked? ==> a.Asked? && r.final == a.final)
            && (r.Asked? && MeetsAny(seen, r.demand) <==> a.Asked? && MeetsAny(seen, a.demand) && MeetsAny(seen, d))
  {
    if a.Asked? && d.Some? && a.demand.Some? {
      MergeMeets(seen, d.value, a.demand.value);
    }
  }

  // ----- The reading that runs on

  ghost function AskedOutcome(meaning: Interp, o: Outcome, s: Store): (a: Asked) {
    if OutcomeNames(o) <= s.Keys then Asked(Some(DemandOf(meaning, o, s)), Some(s)) else Rejected
  }

  ghost function ReadOn(meaning: Interp, spec: seq<Stmt>, s: Store, stack: seq<Header>): (a: Asked)
    decreases spec
  {
    if spec == [] then Asked(None, Some(s))
    else
      var rest := spec[1..];
      match spec[0]
      case Assign(x, e) =>
        if ExprNames(e) <= s.Keys then ReadOn(meaning, rest, s[Var(x) := Eval(meaning, e, s)], stack) else Rejected
      case PopHeader(obj, protocol, onMismatch) =>
        if stack != [] && stack[0].protocol == protocol
        then ReadOn(meaning, rest, BindFields(s, obj, FieldsOf(protocol), stack[0].fields), stack[1..])
        else AskedOutcome(meaning, onMismatch, s)
      case Bind(obj, fields, e) =>
        if ExprNames(e) <= s.Keys
        then ReadOn(meaning, rest, BindFields(s, obj, fields, Components(Eval(meaning, e, s))), stack)
        else Rejected
      case If(test, body, orelse) =>
        if !(ExprNames(test) <= s.Keys) then Rejected
        else
          var yes := Truth(Eval(meaning, test, s));
          var a := if yes then ReadOn(meaning, body, s, stack) else ReadOn(meaning, orelse, s, stack);
          if (yes && TakesRest(spec[0])) || a.Rejected? || a.final.None? then a
          else Join(a.demand, ReadOn(meaning, rest, a.final.value, stack))
      case Assert(e) =>
        if ExprNames(e) <= s.Keys && Truth(Eval(meaning, e, s)) then ReadOn(meaning, rest, s, stack) else Rejected
      case Return(o) =>
        if OutcomeNames(o) <= s.Keys then Join(Some(DemandOf(meaning, o, s)), ReadOn(meaning, rest, s, stack))
        else Rejected
      case Pass => Asked(None, None)
  }

  /** What is asked, and a run of code on an observation, come to the same. */
  ghost predicate Answers(a: Asked, t: Status, d: set<Name>, seen: Observation) {
    if a.Asked? && MeetsAny(seen, a.demand)
    then (if a.final.Some? then t.Ok? && Agree(d, t.store, a.final.value) else t == Cut)
    else t == Bad
  }

  /** Closing a block keeps what was declared outside it. */
  lemma {:induction false} AnswersClose(a: Asked, t: Status, s: Store, d: set<Name>, d': set<Name>, seen: Observation)
    requires s.Keys == d <= d' && Answers(a, t, d', seen)
    ensures Answers(a, Close(s, t), d, seen)
    ensures Close(s, t).Ok? ==> Close(s, t).store.Keys == d
  {
  }

  lemma {:induction false} AnswersLess(a: Asked, t: Status, d: set<Name>, d': set<Name>, seen: Observation)
    requires d <= d' && Answers(a, t, d', seen)
    ensures Answers(a, t, d, seen)
  {
  }

  ghost predicate RunsOn(c: Context, spec: seq<Stmt>, d: set<Name>, vars: set<string>, depth: nat, s: Store, t: Store,
                         stack: seq<Header>) {
    Answers(ReadOn(c.meaning, spec, s, stack),
            Exec(c.meaning, Translated(spec, vars, depth), t, c.received, c.seen), d, c.seen)
  }

  lemma {:induction false} AskedCase(c: Context, o: Outcome, d: set<Name>, s: Store, t: Store)
    requires OutcomeNames(o) <= d && t.Keys == d && Agree(d, t, s)
    ensures Answers(AskedOutcome(c.meaning, o, s), CheckedOutcome(c.meaning, o, t, c.seen), d, c.seen)
  {
    DemandAgrees(c.meaning, o, d, t, s);
  }

  /** A switch over a received header or an object, and the block below it. */
  lemma {:induction false} SwitchCase(c: Context, piece: Code, inner: seq<Code>, d: set<Name>, d': set<Name>, t: Store,
                                      t': Store, a: Asked)
    requires t.Keys == d <= d' && Answers(a, Exec(c.meaning, inner, t', c.received, c.seen), d', c.seen)
    requires Exec(c.meaning, [piece], t, c.received, c.seen)
          == Close(t, Exec(c.meaning, inner, t', c.received, c.seen))
    ensures Answers(a, Exec(c.meaning, [piece], t, c.received, c.seen), d, c.seen)
  {
    AnswersClose(a, Exec(c.meaning, inner, t', c.received, c.seen), t, d, d', c.seen);
  }

  lemma {:induction false} PopRuns(c: Context, spec: seq<Stmt>, d: set<Name>, vars: set<string>, depth: nat, s: Store,
                                   t: Store, stack: seq<Header>)
    requires spec != [] && spec[0].PopHeader? && At(c, d, vars, depth, s, t, stack)
             && OutcomeNames(spec[0].onMismatch) <= d
    requires stack != [] && stack[0].protocol == spec[0].protocol ==>
               var obj, fields := spec[0].obj, FieldsOf(spec[0].protocol);
               RunsOn(c, spec[1..], d + NamesOf(obj, fields), vars, depth + 1,
                      BindFields(s, obj, fields, stack[0].fields), BindFields(t, obj, fields, stack[0].fields),
                      stack[1..])
    ensures RunsOn(c, spec, d, vars, depth, s, t, stack)
  {
    var obj, fields := spec[0].obj, FieldsOf(spec[0].protocol);
    var inner := Translated(spec[1..], vars, depth + 1);
    var piece := SwitchHeader(depth, obj, spec[0].protocol, spec[0].onMismatch, inner);
    assert Translated(spec, vars, depth) == [piece] && [piece][1..] == [];
    assert stack != [] ==> stack[0] == c.received[depth];
    if stack != [] && stack[0].protocol == spec[0].protocol {
      SwitchCase(c, piece, inner, d, d + NamesOf(obj, fields), t, BindFields(t, obj, fields, stack[0].fields),
                 ReadOn(c.meaning, spec, s, stack));
    } else {
      AskedCase(c, spec[0].onMismatch, d, s, t);
    }
  }

  lemma {:induction false} BindRuns(c: Context, spec: seq<Stmt>, d: set<Name>, vars: set<string>, depth: nat, s: Store,
                                    t: Store, stack: seq<Header>, values: seq<Value>)
    requires spec != [] && spec[0].Bind? && At(c, d, vars, depth, s, t, stack) && ExprNames(spec[0].e) <= d
    requires values == Components(Eval(c.meaning, spec[0].e, s))
    requires var obj, fields := spec[0].obj, spec[0].fields;
             RunsOn(c, spec[1..], d + NamesOf(obj, fields), vars, depth,
                    BindFields(s, obj, fields, values), BindFields(t, obj, fields, values), stack)
    ensures RunsOn(c, spec, d, vars, depth, s, t, stack)
  {
    var obj, fields := spec[0].obj, spec[0].fields;
    EvalAgrees(c.meaning, spec[0].e, d, t, s);
    var inner := Translated(spec[1..], vars, depth);
    var piece := SwitchObject(obj, fields, spec[0].e, inner);
    assert Translated(spec, vars, depth) == [piece] && [piece][1..] == [];
    SwitchCase(c, piece, inner, d, d + NamesOf(obj, fields), t, BindFields(t, obj, fields, values),
               ReadOn(c.meaning, spec, s, stack));
  }

  lemma {:induction false} ReturnRuns(c: Context, spec: seq<Stmt>, d: set<Name>, vars: set<string>, depth: nat,
                                      s: Store, t: Store, stack: seq<Header>)
    requires spec != [] && spec[0].Return? && At(c, d, vars, depth, s, t, stack) && OutcomeNames(spec[0].outcome) <= d
    requires RunsOn(c, spec[1..], d, vars, depth, s, t, stack)
    ensures RunsOn(c, spec, d, vars, depth, s, t, stack)
  {
    HeadTail(CheckSent(spec[0].outcome), Translated(spec[1..], vars, depth));
    OutcomeCase(c, spec[0].outcome, d, s, t);
    JoinMeets(c.seen, Some(DemandOf(c.meaning, spec[0].outcome, s)), ReadOn(c.meaning, spec[1..], s, stack));
  }

  /** A conditional whose block `a` describes; what follows it runs where the block has ended. */
  lemma {:induction false} BranchCase(c: Context, spec: seq<Stmt>, d: set<Name>, vars: set<string>, depth: nat,
                                      s: Store, t: Store, stack: seq<Header>, a: Asked, e: Status)
    requires spec != [] && spec[0].If? && !TakesRest(spec[0]) && At(c, d, vars, depth, s, t, stack)
    requires ExprNames(spec[0].test) <= d && a == ReadOn(c.meaning, Taken(c.meaning, spec[0], s), s, stack)
    requires e == AfterBranch(c, Taken(c.meaning, spec[0], s), vars, depth, t) && Answers(a, e, d, c.seen)
    requires e.Ok? ==> RunsOn(c, spec[1..], d, vars, depth, a.final.value, e.store, stack)
    ensures RunsOn(c, spec, d, vars, depth, s, t, stack)
  {
    BranchRuns(c, spec, d, vars, depth, s, t);
    if a.Asked? && a.final.Some? {
      JoinMeets(c.seen, a.demand, ReadOn(c.meaning, spec[1..], a.final.value, stack));
    }
  }

  /** A conditional that takes in what follows. */
  lemma {:induction false} TakesRestRuns(c: Context, spec: seq<Stmt>, d: set<Name>, vars: set<string>, depth: nat,
                                         s: Store, t: Store, stack: seq<Header>)
    requires spec != [] && TakesRest(spec[0]) && At(c, d, vars, depth, s, t, stack) && ExprNames(spec[0].test) <= d
    requires if Truth(Eval(c.meaning, spec[0].test, s)) then RunsOn(c, spec[0].body, d, vars, depth, s, t, stack)
             else RunsOn(c, spec[1..], d, vars, depth, s, t, stack)
    ensures RunsOn(c, spec, d, vars, depth, s, t, stack)
  {
    EvalAgrees(c.meaning, spec[0].test, d, t, s);
    var yes, no := Translated(spec[0].body, vars, depth), Translated(spec[1..], vars, depth);
    var piece := Branch(spec[0].test, yes, no);
    assert Translated(spec, vars, depth) == [piece] && [piece][1..] == [];
    var a := ReadOn(c.meaning, spec, s, stack);
    if Truth(Eval(c.meaning, spec[0].test, s)) {
      SwitchCase(c, piece, yes, d, d, t, t, a);
    } else {
      assert ReadOn(c.meaning, spec[0].orelse, s, stack) == Asked(None, Some(s));
      SwitchCase(c, piece, no, d, d, t, t, a);
    }
  }

  /** The translation of every well-scoped specification, on every input, does what reading on asks. */
  lemma {:induction false} Runs(c: Context, spec: seq<Stmt>, d: set<Name>, vars: set<string>, depth: nat, s: Store,
                                t: Store, stack: seq<Header>)
    requires At(c, d, vars, depth, s, t, stack) && WellScoped(spec, d)
    ensures RunsOn(c, spec, d, vars, depth, s, t, stack)
    decreases spec, 1
  {
    if spec != [] {
      var rest := spec[1..];
      match spec[0]
      case Assign(x, e) =>
        var v := Eval(c.meaning, e, s);
        EvalAgrees(c.meaning, e, d, t, s);
        Runs(c, rest, d + {Var(x)}, vars + {x}, depth, s[Var(x) := v], t[Var(x) := v], stack);
        var tail := Translated(rest, vars + {x}, depth);
        HeadTail(if x in vars then Set(x, e) else Declare(x, e), tail);
        AnswersLess(ReadOn(c.meaning, spec, s, stack), Exec(c.meaning, tail, t[Var(x) := v], c.received, c.seen),
                    d, d + {Var(x)}, c.seen);
      case PopHeader(obj, protocol, _) =>
        if stack != [] && stack[0].protocol == protocol {
          RunsUnder(c, rest, d, vars, depth + 1, s, t, stack[1..], obj, FieldsOf(protocol), stack[0].fields);
        }
        PopRuns(c, spec, d, vars, depth, s, t, stack);
      case Bind(obj, fields, e) =>
        var values := Components(Eval(c.meaning, e, s));
        RunsUnder(c, rest, d, vars, depth, s, t, stack, obj, fields, values);
        BindRuns(c, spec, d, vars, depth, s, t, stack, values);
      case If(_, _, _) =>
        RunsIf(c, spec, d, vars, depth, s, t, stack);
      case Assert(e) =>
        Runs(c, rest, d, vars, depth, s, t, stack);
        EvalAgrees(c.meaning, e, d, t, s);
        HeadTail(Check(e), Translated(rest, vars, depth));
      case Return(_) =>
        Runs(c, rest, d, vars, depth, s, t, stack);
        ReturnRuns(c, spec, d, vars, depth, s, t, stack);
      case Pass =>
        HeadTail(AssumeFalse, Translated(rest, vars, depth));
    }
  }

  lemma {:induction false} RunsUnder(c: Context, rest: seq<Stmt>, d: set<Name>, vars: set<string>, depth: nat,
                                     s: Store, t: Store, stack: seq<Header>, obj: string, fields: seq<string>,
                                     values: seq<Value>)
    requires (forall x :: Var(x) in d <==> x in vars) && t.Keys == d && Agree(d, t, s)
    requires depth <= |c.received| && stack == c.received[depth..] && WellScoped(rest, d + NamesOf(obj, fields))
    ensures RunsOn(c, rest, d + NamesOf(obj, fields), vars, depth,
                   BindFields(s, obj, fields, values), BindFields(t, obj, fields, values), stack)
    decreases rest, 2
  {
    BindAgrees(d, t, s, obj, fields, values);
    Runs(c, rest, d + NamesOf(obj, fields), vars, depth,
         BindFields(s, obj, fields, values), BindFields(t, obj, fields, values), stack);
  }

  lemma {:induction false} RunsIf(c: Context, spec: seq<Stmt>, d: set<Name>, vars: set<string>, depth: nat, s: Store,
                                  t: Store, stack: seq<Header>)
    requires spec != [] && spec[0].If? && At(c, d, vars, depth, s, t, stack) && WellScoped(spec, d)
    ensures RunsOn(c, spec, d, vars, depth, s, t, stack)
    decreases spec, 0
  {
    var rest, branch := spec[1..], Taken(c.meaning, spec[0], s);
    if TakesRest(spec[0]) {
      Runs(c, if Truth(Eval(c.meaning, spec[0].test, s)) then spec[0].body else rest, d, vars, depth, s, t, stack);
      TakesRestRuns(c, spec, d, vars, depth, s, t, stack);
    } else {
      Runs(c, branch, d, vars, depth, s, t, stack);
      var a, e := ReadOn(c.meaning, branch, s, stack), AfterBranch(c, branch, vars, depth, t);
      AnswersClose(a, Exec(c.meaning, Translated(branch, vars, depth), t, c.received, c.seen), t, d, d, c.seen);
      if e.Ok? {
        Runs(c, rest, d, vars, depth, a.final.value, e.store, stack);
      }
      BranchCase(c, spec, d, vars, depth, s, t, stack, a, e);
    }
  }
}
