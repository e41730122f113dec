/** When the translation of a specification means what the specification means. */
module SpecPreservation {
  import opened SpecLanguage
  import opened SpecMeaning
  import opened SpecTranslator

  // ----- When the translation may be trusted

  /** Every name is declared, by the rules of the translation, where it is used, and no object is bound twice. */
  ghost predicate WellScoped(spec: seq<Stmt>, d: set<Name>)
    decreases spec
  {
    spec == [] ||
    var rest := spec[1..];
    match spec[0]
    case Assign(x, e) => ExprNames(e) <= d && WellScoped(rest, d + {Var(x)})
    case PopHeader(obj, protocol, onMismatch) =>
      OutcomeNames(onMismatch) <= d && NamesOf(obj, FieldsOf(protocol)) !! d
      && WellScoped(rest, d + NamesOf(obj, FieldsOf(protocol)))
    case Bind(obj, fields, e) =>
      ExprNames(e) <= d && NamesOf(obj, fields) !! d && WellScoped(rest, d + NamesOf(obj, fields))
    case If(test, body, orelse) =>
      ExprNames(test) <= d && WellScoped(body, d) && WellScoped(orelse, d) && WellScoped(rest, d)
    case Assert(e) => ExprNames(e) <= d && WellScoped(rest, d)
    case Return(o) => OutcomeNames(o) <= d && WellScoped(rest, d)
    case Pass => WellScoped(rest, d)
  }

  /** The popping of a header, at any depth. */
  predicate Pops(spec: seq<Stmt>)
    decreases spec
  {
    spec != [] &&
    (spec[0].PopHeader? || (spec[0].If? && (Pops(spec[0].body) || Pops(spec[0].orelse))) || Pops(spec[1..]))
  }

  /** Reading what follows would do nothing: it falls through and leaves the declared names as they are. */
  ghost predicate Idle(meaning: Interp, spec: seq<Stmt>, d: set<Name>, s: Store, stack: seq<Header>)
    decreases spec, 1
  {
    && Quiet(meaning, spec, d, s, stack)
    && var r := Read(meaning, spec, s, stack);
    && r.Falls? && d <= r.store.Keys && d <= s.Keys && forall x :: x in d ==> r.store[x] == s[x]
  }

  /** On the path that the inputs take: where the specification has returned, what follows would do nothing; and
      a branch that falls through to statements that pop headers has popped none. */
  ghost predicate Quiet(meaning: Interp, spec: seq<Stmt>, d: set<Name>, s: Store, stack: seq<Header>)
    decreases spec, 0
  {
    spec == [] ||
    var rest := spec[1..];
    match spec[0]
    case Assign(x, e) =>
      ExprNames(e) <= s.Keys ==> Quiet(meaning, rest, d + {Var(x)}, s[Var(x) := Eval(meaning, e, s)], stack)
    case PopHeader(obj, protocol, _) =>
      stack != [] && stack[0].protocol == protocol ==>
        Quiet(meaning, rest, d + NamesOf(obj, FieldsOf(protocol)),
              BindFields(s, obj, FieldsOf(protocol), stack[0].fields), stack[1..])
    case Bind(obj, fields, e) =>
      ExprNames(e) <= s.Keys ==>
        Quiet(meaning, rest, d + NamesOf(obj, fields),
              BindFields(s, obj, fields, Components(Eval(meaning, e, s))), stack)
    case If(test, body, orelse) =>
      ExprNames(test) <= s.Keys ==>
        var yes := Truth(Eval(meaning, test, s));
        var r := if yes then Read(meaning, body, s, stack) else Read(meaning, orelse, s, stack);
        && (if yes then Quiet(meaning, body, d, s, stack) else Quiet(meaning, orelse, d, s, stack))
        && (r.Falls? ==> (!Pops(rest) || r.stack == stack) && Quiet(meaning, rest, d, r.store, stack))
        && (r.Returns? && !TakesRest(spec[0]) ==> Idle(meaning, rest, d, r.store, stack))
    case Assert(e) =>
      ExprNames(e) <= s.Keys && Truth(Eval(meaning, e, s)) ==> Quiet(meaning, rest, d, s, stack)
    case Return(_) => Idle(meaning, rest, d, s, stack)
    case Pass => true
  }

  // ----- The translation preserves the meaning

  /** A reading of a specification and a run of code on an observation come to the same. */
  ghost predicate Matches(r: Reading, t: Status, d: set<Name>, seen: Observation) {
    match r
    case Fails => t == Bad
    case Ignored => t == Cut
    case Undefined => false
    case Returns(demand, s) => if Meets(seen, demand) then t.Ok? && Agree(d, t.store, s) else t == Bad
    case Falls(s, _) => t.Ok? && Agree(d, t.store, s)
  }

  /** The inputs of a run: meaning of operators, received headers and the observation. */
  datatype Context = Context(meaning: Interp, received: seq<Header>, seen: Observation)

  /** What the translation needs to know of a point in a specification. */
  ghost predicate At(c: Context, d: set<Name>, vars: set<string>, depth: nat, s: Store, t: Store,
                     stack: seq<Header>) {
    && (forall x :: Var(x) in d <==> x in vars)
    && t.Keys == d && Agree(d, t, s)
    && depth <= |c.received| && stack == c.received[depth..]
  }

  ghost predicate Preserved(c: Context, spec: seq<Stmt>, d: set<Name>, vars: set<string>, depth: nat, s: Store,
                            t: Store,
                            stack: seq<Header>) {
    Matches(Read(c.meaning, spec, s, stack),
            Exec(c.meaning, Translated(spec, vars, depth), t, c.received, c.seen), d, c.seen)
  }

  lemma {:induction false} HeadTail(x: Code, xs: seq<Code>)
    ensures ([x] + xs)[0] == x && ([x] + xs)[1..] == xs
  {
  }

  /** A block with a return among its statements never falls through. */
  lemma {:induction false} ReturnIsReached(meaning: Interp, block: seq<Stmt>, s: Store, stack: seq<Header>)
    requires HasReturn(block)
    ensures !Read(meaning, block, s, stack).Falls?
    decreases block
  {
    var rest := block[1..];
    if !block[0].Return? {
      assert HasReturn(rest) by {
        var i :| 0 <= i < |block| && block[i].Return?;
        assert rest[i - 1] == block[i];
      }
      match block[0]
      case Assign(x, e) =>
        if ExprNames(e) <= s.Keys {
          ReturnIsReached(meaning, rest, s[Var(x) := Eval(meaning, e, s)], stack);
        }
      case PopHeader(obj, protocol, _) =>
        if stack != [] && stack[0].protocol == protocol {
          ReturnIsReached(meaning, rest, BindFields(s, obj, FieldsOf(protocol), stack[0].fields), stack[1..]);
        }
      case Bind(obj, fields, e) =>
        if ExprNames(e) <= s.Keys {
          ReturnIsReached(meaning, rest, BindFields(s, obj, fields, Components(Eval(meaning, e, s))), stack);
        }
      case If(test, body, orelse) =>
        if ExprNames(test) <= s.Keys {
          var r := if Truth(Eval(meaning, test, s)) then Read(meaning, body, s, stack)
                   else Read(meaning, orelse, s, stack);
          if r.Falls? {
            ReturnIsReached(meaning, rest, r.store, r.stack);
          }
        }
      case Assert(e) =>
        ReturnIsReached(meaning, rest, s, stack);
      case Pass =>
    }
  }

  /** Statements that pop no header read the same from any headers, and leave them alone. */
  lemma {:induction false} StackIsUnread(meaning: Interp, spec: seq<Stmt>, s: Store, stack: seq<Header>,
                                         stack': seq<Header>)
    requires !Pops(spec)
    ensures var r := Read(meaning, spec, s, stack);
            && (r.Falls? ==> r.stack == stack)
            && Read(meaning, spec, s, stack') == if r.Falls? then Falls(r.store, stack') else r
    decreases spec
  {
    if spec != [] {
      var rest := spec[1..];
      match spec[0]
      case Assign(x, e) =>
        if ExprNames(e) <= s.Keys {
          StackIsUnread(meaning, rest, s[Var(x) := Eval(meaning, e, s)], stack, stack');
        }
      case Bind(obj, fields, e) =>
        if ExprNames(e) <= s.Keys {
          StackIsUnread(meaning, rest, BindFields(s, obj, fields, Components(Eval(meaning, e, s))), stack, stack');
        }
      case If(test, body, orelse) =>
        if ExprNames(test) <= s.Keys {
          var branch := if Truth(Eval(meaning, test, s)) then body else orelse;
          StackIsUnread(meaning, branch, s, stack, stack');
          var r := Read(meaning, branch, s, stack);
          if r.Falls? {
            StackIsUnread(meaning, rest, r.store, stack, stack');
          }
        }
      case Assert(e) =>
        StackIsUnread(meaning, rest, s, stack, stack');
      case Return(_) =>
      case Pass =>
    }
  }

  lemma {:induction false} MatchesLess(r: Reading, t: Status, d: set<Name>, d': set<Name>, seen: Observation)
    requires d <= d' && Matches(r, t, d', seen)
    ensures Matches(r, t, d, seen)
  {
  }

  /** Closing a block keeps what was declared outside it. */
  lemma {:induction false} MatchesClose(r: Reading, t: Status, s: Store, d: set<Name>, seen: Observation)
    requires s.Keys == d && Matches(r, t, d, seen)
    ensures Matches(r, Close(s, t), d, seen)
    ensures Close(s, t).Ok? ==> Close(s, t).store.Keys == d
  {
  }

  lemma {:induction false} AssignCase(c: Context, spec: seq<Stmt>, d: set<Name>, vars: set<string>, depth: nat,
                                      s: Store, t: Store,
                                      stack: seq<Header>, v: Value)
    requires spec != [] && spec[0].Assign? && At(c, d, vars, depth, s, t, stack) && ExprNames(spec[0].e) <= d
    requires v == Eval(c.meaning, spec[0].e, s)
    requires var x := spec[0].x;
             Preserved(c, spec[1..], d + {Var(x)}, vars + {x}, depth, s[Var(x) := v], t[Var(x) := v], stack)
    ensures Preserved(c, spec, d, vars, depth, s, t, stack)
  {
    var x, e := spec[0].x, spec[0].e;
    EvalAgrees(c.meaning, e, d, t, s);
    var rest := Translated(spec[1..], vars + {x}, depth);
    HeadTail(if x in vars then Set(x, e) else Declare(x, e), rest);
    MatchesLess(Read(c.meaning, spec, s, stack), Exec(c.meaning, rest, t[Var(x) := v], c.received, c.seen),
                d, d + {Var(x)}, c.seen);
  }

  lemma {:induction false} OutcomeCase(c: Context, o: Outcome, d: set<Name>, s: Store, t: Store)
    requires OutcomeNames(o) <= d && t.Keys == d && Agree(d, t, s)
    ensures Matches(Leave(c.meaning, o, s), CheckedOutcome(c.meaning, o, t, c.seen), d, c.seen)
    ensures Leave(c.meaning, o, s) == Returns(DemandOf(c.meaning, o, s), s)
    ensures CheckedOutcome(c.meaning, o, t, c.seen) == if Meets(c.seen, DemandOf(c.meaning, o, s)) then Ok(t) else Bad
  {
    DemandAgrees(c.meaning, o, d, t, s);
  }

  lemma {:induction false} PopCase(c: Context, spec: seq<Stmt>, d: set<Name>, vars: set<string>, depth: nat,
                                   s: Store, t: Store,
                                   stack: seq<Header>)
    requires spec != [] && spec[0].PopHeader? && At(c, d, vars, depth, s, t, stack)
             && OutcomeNames(spec[0].onMismatch) <= d
    requires stack != [] && stack[0].protocol == spec[0].protocol ==>
               var obj, fields := spec[0].obj, FieldsOf(spec[0].protocol);
               Preserved(c, spec[1..], d + NamesOf(obj, fields), vars, depth + 1,
                         BindFields(s, obj, fields, stack[0].fields), BindFields(t, obj, fields, stack[0].fields),
                         stack[1..])
    ensures Preserved(c, spec, d, vars, depth, s, t, stack)
  {
    var obj, fields := spec[0].obj, FieldsOf(spec[0].protocol);
    var inner := Translated(spec[1..], vars, depth + 1);
    var piece := SwitchHeader(depth, obj, spec[0].protocol, spec[0].onMismatch, inner);
    assert Translated(spec, vars, depth) == [piece] && [piece][1..] == [];
    assert stack != [] ==> stack[0] == c.received[depth];
    if stack != [] && stack[0].protocol == spec[0].protocol {
      var r := Read(c.meaning, spec, s, stack);
      var e := Exec(c.meaning, inner, BindFields(t, obj, fields, stack[0].fields), c.received, c.seen);
      MatchesLess(r, e, d, d + NamesOf(obj, fields), c.seen);
      MatchesClose(r, e, t, d, c.seen);
    } else {
      OutcomeCase(c, spec[0].onMismatch, d, s, t);
    }
  }

  lemma {:induction false} BindCase(c: Context, spec: seq<Stmt>, d: set<Name>, vars: set<string>, depth: nat,
                                    s: Store, t: Store,
                                    stack: seq<Header>, values: seq<Value>)
    requires spec != [] && spec[0].Bind? && At(c, d, vars, depth, s, t, stack) && ExprNames(spec[0].e) <= d
    requires values == Components(Eval(c.meaning, spec[0].e, s))
    requires var obj, fields := spec[0].obj, spec[0].fields;
             Preserved(c, spec[1..], d + NamesOf(obj, fields), vars, depth,
                       BindFields(s, obj, fields, values), BindFields(t, obj, fields, values), stack)
    ensures Preserved(c, spec, d, vars, depth, s, t, stack)
  {
    var obj, fields := spec[0].obj, spec[0].fields;
    EvalAgrees(c.meaning, spec[0].e, d, t, s);
    var inner := Translated(spec[1..], vars, depth);
    var piece := SwitchObject(obj, fields, spec[0].e, inner);
    assert Translated(spec, vars, depth) == [piece] && [piece][1..] == [];
    var r := Read(c.meaning, spec, s, stack);
    var e := Exec(c.meaning, inner, BindFields(t, obj, fields, values), c.received, c.seen);
    MatchesLess(r, e, d, d + NamesOf(obj, fields), c.seen);
    MatchesClose(r, e, t, d, c.seen);
  }

  /** After a return, code that does nothing makes no difference. */
  lemma {:induction false} IdleRest(c: Context, rest: seq<Stmt>, d: set<Name>, vars: set<string>, depth: nat,
                                    s: Store, t: Store,
                                    stack: seq<Header>)
    requires Idle(c.meaning, rest, d, s, stack) && Agree(d, t, s) && Preserved(c, rest, d, vars, depth, s, t, stack)
    ensures var e := Exec(c.meaning, Translated(rest, vars, depth), t, c.received, c.seen);
            e.Ok? && Agree(d, e.store, s)
  {
  }

  lemma {:induction false} ReturnCase(c: Context, spec: seq<Stmt>, d: set<Name>, vars: set<string>, depth: nat,
                                      s: Store, t: Store,
                                      stack: seq<Header>)
    requires spec != [] && spec[0].Return? && At(c, d, vars, depth, s, t, stack) && OutcomeNames(spec[0].outcome) <= d
    requires Idle(c.meaning, spec[1..], d, s, stack) && Preserved(c, spec[1..], d, vars, depth, s, t, stack)
    ensures Preserved(c, spec, d, vars, depth, s, t, stack)
  {
    HeadTail(CheckSent(spec[0].outcome), Translated(spec[1..], vars, depth));
    OutcomeCase(c, spec[0].outcome, d, s, t);
    IdleRest(c, spec[1..], d, vars, depth, s, t, stack);
  }

  lemma {:induction false} AssertCase(c: Context, spec: seq<Stmt>, d: set<Name>, vars: set<string>, depth: nat,
                                      s: Store, t: Store,
                                      stack: seq<Header>)
    requires spec != [] && spec[0].Assert? && At(c, d, vars, depth, s, t, stack) && ExprNames(spec[0].e) <= d
    requires Truth(Eval(c.meaning, spec[0].e, s)) ==> Preserved(c, spec[1..], d, vars, depth, s, t, stack)
    ensures Preserved(c, spec, d, vars, depth, s, t, stack)
  {
    HeadTail(Check(spec[0].e), Translated(spec[1..], vars, depth));
    EvalAgrees(c.meaning, spec[0].e, d, t, s);
  }

  lemma {:induction false} PassCase(c: Context, spec: seq<Stmt>, d: set<Name>, vars: set<string>, depth: nat,
                                    s: Store, t: Store,
                                    stack: seq<Header>)
    requires spec != [] && spec[0].Pass?
    ensures Preserved(c, spec, d, vars, depth, s, t, stack)
  {
    HeadTail(AssumeFalse, Translated(spec[1..], vars, depth));
  }

  /** The branch that a conditional takes. */
  ghost function Taken(meaning: Interp, stmt: Stmt, s: Store): (branch: seq<Stmt>)
    requires stmt.If? && ExprNames(stmt.test) <= s.Keys
  {
    if Truth(Eval(meaning, stmt.test, s)) then stmt.body else stmt.orelse
  }

  /** The state after the block of the branch that a conditional takes. */
  ghost function AfterBranch(c: Context, branch: seq<Stmt>, vars: set<string>, depth: nat, t: Store): (r: Status) {
    Close(t, Exec(c.meaning, Translated(branch, vars, depth), t, c.received, c.seen))
  }

  lemma {:induction false} BranchRuns(c: Context, spec: seq<Stmt>, d: set<Name>, vars: set<string>, depth: nat,
                                      s: Store, t: Store)
    requires spec != [] && spec[0].If? && !TakesRest(spec[0]) && ExprNames(spec[0].test) <= d && t.Keys == d
             && Agree(d, t, s)
    ensures var r := AfterBranch(c, Taken(c.meaning, spec[0], s), vars, depth, t);
            Exec(c.meaning, Translated(spec, vars, depth), t, c.received, c.seen)
            == if r.Ok? then Exec(c.meaning, Translated(spec[1..], vars, depth), r.store, c.received, c.seen) else r
  {
    EvalAgrees(c.meaning, spec[0].test, d, t, s);
    HeadTail(Branch(spec[0].test, Translated(spec[0].body, vars, depth), Translated(spec[0].orelse, vars, depth)),
             Translated(spec[1..], vars, depth));
  }

  lemma {:induction false} IfCase(c: Context, spec: seq<Stmt>, d: set<Name>, vars: set<string>, depth: nat,
                                  s: Store, t: Store,
                                  stack: seq<Header>, r: Reading, e: Status)
    requires spec != [] && spec[0].If? && !TakesRest(spec[0]) && At(c, d, vars, depth, s, t, stack)
    requires ExprNames(spec[0].test) <= d
    requires r == Read(c.meaning, Taken(c.meaning, spec[0], s), s, stack)
    requires e == AfterBranch(c, Taken(c.meaning, spec[0], s), vars, depth, t) && Matches(r, e, d, c.seen)
    requires r.Falls? ==>
               (!Pops(spec[1..]) || r.stack == stack)
                 && Preserved(c, spec[1..], d, vars, depth, r.store, e.store, stack)
    requires r.Returns? && e.Ok? ==>
               Idle(c.meaning, spec[1..], d, r.store, stack)
                 && Preserved(c, spec[1..], d, vars, depth, r.store, e.store, stack)
    ensures Preserved(c, spec, d, vars, depth, s, t, stack)
  {
    BranchRuns(c, spec, d, vars, depth, s, t);
    assert Read(c.meaning, spec, s, stack) == if r.Falls? then Read(c.meaning, spec[1..], r.store, r.stack) else r;
    if r.Falls? && !Pops(spec[1..]) {
      StackIsUnread(c.meaning, spec[1..], r.store, stack, r.stack);
    }
    if r.Returns? && e.Ok? {
      IdleRest(c, spec[1..], d, vars, depth, r.store, e.store, stack);
    }
  }

  /** A conditional whose body has a return, and which takes in what follows. */
  lemma {:induction false} TakesRestCase(c: Context, spec: seq<Stmt>, d: set<Name>, vars: set<string>, depth: nat,
                                         s: Store, t: Store,
                                         stack: seq<Header>)
    requires spec != [] && TakesRest(spec[0]) && At(c, d, vars, depth, s, t, stack) && ExprNames(spec[0].test) <= d
    requires if Truth(Eval(c.meaning, spec[0].test, s)) then Preserved(c, spec[0].body, d, vars, depth, s, t, stack)
             else Preserved(c, spec[1..], d, vars, depth, s, t, stack)
    ensures Preserved(c, spec, d, vars, depth, s, t, stack)
  {
    EvalAgrees(c.meaning, spec[0].test, d, t, s);
    var yes, no := Translated(spec[0].body, vars, depth), Translated(spec[1..], vars, depth);
    assert Translated(spec, vars, depth) == [Branch(spec[0].test, yes, no)]
           && [Branch(spec[0].test, yes, no)][1..] == [];
    if Truth(Eval(c.meaning, spec[0].test, s)) {
      ReturnIsReached(c.meaning, spec[0].body, s, stack);
      MatchesClose(Read(c.meaning, spec[0].body, s, stack), Exec(c.meaning, yes, t, c.received, c.seen), t, d, c.seen);
    } else {
      assert Read(c.meaning, spec[0].orelse, s, stack) == Falls(s, stack);
      MatchesClose(Read(c.meaning, spec[1..], s, stack), Exec(c.meaning, no, t, c.received, c.seen), t, d, c.seen);
    }
  }

  /** The translation of a well-scoped specification means what the specification means, for inputs on which it
      is quiet. */
  lemma {:induction false} Preserves(c: Context, spec: seq<Stmt>, d: set<Name>, vars: set<string>, depth: nat,
                                     s: Store, t: Store,
                                     stack: seq<Header>)
    requires At(c, d, vars, depth, s, t, stack) && WellScoped(spec, d) && Quiet(c.meaning, spec, d, s, stack)
    ensures Preserved(c, spec, d, vars, depth, s, t, stack)
    decreases spec, 1
  {
    if spec != [] {
      var rest := spec[1..];
      match spec[0]
      case Assign(x, e) =>
        var v := Eval(c.meaning, e, s);
        Preserves(c, rest, d + {Var(x)}, vars + {x}, depth, s[Var(x) := v], t[Var(x) := v], stack);
        AssignCase(c, spec, d, vars, depth, s, t, stack, v);
      case PopHeader(obj, protocol, _) =>
        if stack != [] && stack[0].protocol == protocol {
          PreservesUnder(c, rest, d, vars, depth + 1, s, t, stack[1..], obj, FieldsOf(protocol), stack[0].fields);
        }
        PopCase(c, spec, d, vars, depth, s, t, stack);
      case Bind(obj, fields, e) =>
        var values := Components(Eval(c.meaning, e, s));
        PreservesUnder(c, rest, d, vars, depth, s, t, stack, obj, fields, values);
        BindCase(c, spec, d, vars, depth, s, t, stack, values);
      case If(_, _, _) =>
        PreservesIf(c, spec, d, vars, depth, s, t, stack);
      case Assert(e) =>
        if Truth(Eval(c.meaning, e, s)) {
          Preserves(c, rest, d, vars, depth, s, t, stack);
        }
        AssertCase(c, spec, d, vars, depth, s, t, stack);
      case Return(_) =>
        Preserves(c, rest, d, vars, depth, s, t, stack);
        ReturnCase(c, spec, d, vars, depth, s, t, stack);
      case Pass =>
        PassCase(c, spec, d, vars, depth, s, t, stack);
    }
  }

  /** The same below the binding of an object. */
  lemma {:induction false} PreservesUnder(c: Context, rest: seq<Stmt>, d: set<Name>, vars: set<string>, depth: nat,
                                          s: Store, t: Store,
                                          stack: seq<Header>, obj: string, fields: seq<string>, values: seq<Value>)
    requires (forall x :: Var(x) in d <==> x in vars) && t.Keys == d && Agree(d, t, s)
    requires depth <= |c.received| && stack == c.received[depth..]
    requires WellScoped(rest, d + NamesOf(obj, fields))
    requires Quiet(c.meaning, rest, d + NamesOf(obj, fields), BindFields(s, obj, fields, values), stack)
    ensures Preserved(c, rest, d + NamesOf(obj, fields), vars, depth,
                      BindFields(s, obj, fields, values), BindFields(t, obj, fields, values), stack)
    decreases rest, 2
  {
    BindAgrees(d, t, s, obj, fields, values);
    Preserves(c, rest, d + NamesOf(obj, fields), vars, depth,
              BindFields(s, obj, fields, values), BindFields(t, obj, fields, values), stack);
  }

  lemma {:induction false} PreservesIf(c: Context, spec: seq<Stmt>, d: set<Name>, vars: set<string>, depth: nat,
                                       s: Store, t: Store,
                                       stack: seq<Header>)
    requires spec != [] && spec[0].If?
    requires At(c, d, vars, depth, s, t, stack) && WellScoped(spec, d) && Quiet(c.meaning, spec, d, s, stack)
    ensures Preserved(c, spec, d, vars, depth, s, t, stack)
    decreases spec, 0
  {
    var rest := spec[1..];
    var branch := Taken(c.meaning, spec[0], s);
    Preserves(c, branch, d, vars, depth, s, t, stack);
    if TakesRest(spec[0]) {
      if !Truth(Eval(c.meaning, spec[0].test, s)) {
        Preserves(c, rest, d, vars, depth, s, t, stack);
      }
      TakesRestCase(c, spec, d, vars, depth, s, t, stack);
    } else {
      var r := Read(c.meaning, branch, s, stack);
      var e := AfterBranch(c, branch, vars, depth, t);
      MatchesClose(r, Exec(c.meaning, Translated(branch, vars, depth), t, c.received, c.seen), t, d, c.seen);
      if r.Falls? || (r.Returns? && e.Ok?) {
        Preserves(c, rest, d, vars, depth, r.store, e.store, stack);
      }
      IfCase(c, spec, d, vars, depth, s, t, stack, r, e);
    }
  }

  /** The translation accepts exactly the observations that the specification allows. */
  lemma {:induction false} SameObservations(c: Context, spec: seq<Stmt>, state: set<Name>, vars: set<string>,
                                            s: Store)
    requires forall x :: Var(x) in s.Keys <==> x in vars
    requires state <= s.Keys && WellScoped(spec, s.Keys) && Quiet(c.meaning, spec, s.Keys, s, c.received)
    ensures Accepts(Exec(c.meaning, Translated(spec, vars, 0), s, c.received, c.seen), state, c.seen)
            <==> Allows(Read(c.meaning, spec, s, c.received), state, c.seen)
  {
    assert c.received[0..] == c.received;
    Preserves(c, spec, s.Keys, vars, 0, s, s, c.received);
  }

  // ----- Specifications that are quiet on every input

  /** A return or the popping of a header, at any depth. */
  predicate MayLeave(spec: seq<Stmt>)
    decreases spec
  {
    spec != [] &&
    (match spec[0]
     case PopHeader(_, _, _) => true
     case Return(_) => true
     case If(_, body, orelse) => MayLeave(body) || MayLeave(orelse) || MayLeave(spec[1..])
     case Assign(_, _) => MayLeave(spec[1..])
     case Bind(_, _, _) => MayLeave(spec[1..])
     case Assert(_) => MayLeave(spec[1..])
     case Pass => MayLeave(spec[1..]))
  }

  /** Nothing follows a return, nor a conditional that may leave the specification, unless the translation moves
      what follows into the other branch. */
  predicate Tidy(spec: seq<Stmt>)
    decreases spec
  {
    spec == [] ||
    (match spec[0]
     case Return(_) => spec[1..] == []
     case If(_, body, orelse) =>
       && Tidy(body) && Tidy(orelse) && Tidy(spec[1..])
       && (spec[1..] == [] || TakesRest(spec[0]) || (!MayLeave(body) && !MayLeave(orelse)))
     case PopHeader(_, _, _) => Tidy(spec[1..])
     case Assign(_, _) => Tidy(spec[1..])
     case Bind(_, _, _) => Tidy(spec[1..])
     case Assert(_) => Tidy(spec[1..])
     case Pass => Tidy(spec[1..]))
  }

  lemma {:induction false} Stays(meaning: Interp, spec: seq<Stmt>, s: Store, stack: seq<Header>)
    requires !MayLeave(spec)
    ensures var r := Read(meaning, spec, s, stack); !r.Returns? && (r.Falls? ==> r.stack == stack)
    decreases spec
  {
    if spec != [] {
      var rest := spec[1..];
      match spec[0]
      case Assign(x, e) =>
        if ExprNames(e) <= s.Keys {
          Stays(meaning, rest, s[Var(x) := Eval(meaning, e, s)], stack);
        }
      case Bind(obj, fields, e) =>
        if ExprNames(e) <= s.Keys {
          Stays(meaning, rest, BindFields(s, obj, fields, Components(Eval(meaning, e, s))), stack);
        }
      case If(test, body, orelse) =>
        if ExprNames(test) <= s.Keys {
          var branch := Taken(meaning, spec[0], s);
          Stays(meaning, branch, s, stack);
          var r := Read(meaning, branch, s, stack);
          if r.Falls? {
            Stays(meaning, rest, r.store, stack);
          }
        }
      case Assert(e) =>
        Stays(meaning, rest, s, stack);
      case Pass =>
    }
  }

  /** A tidy specification is quiet on every input. */
  lemma {:induction false} TidyIsQuiet(meaning: Interp, spec: seq<Stmt>, d: set<Name>, s: Store, stack: seq<Header>)
    requires Tidy(spec) && d <= s.Keys
    ensures Quiet(meaning, spec, d, s, stack)
    decreases spec, 1
  {
    if spec != [] {
      var rest := spec[1..];
      match spec[0]
      case Assign(x, e) =>
        if ExprNames(e) <= s.Keys {
          TidyIsQuiet(meaning, rest, d + {Var(x)}, s[Var(x) := Eval(meaning, e, s)], stack);
        }
      case PopHeader(obj, protocol, _) =>
        if stack != [] && stack[0].protocol == protocol {
          BindAgrees(d, s, s, obj, FieldsOf(protocol), stack[0].fields);
          TidyIsQuiet(meaning, rest, d + NamesOf(obj, FieldsOf(protocol)),
                      BindFields(s, obj, FieldsOf(protocol), stack[0].fields), stack[1..]);
        }
      case Bind(obj, fields, e) =>
        if ExprNames(e) <= s.Keys {
          var values := Components(Eval(meaning, e, s));
          BindAgrees(d, s, s, obj, fields, values);
          TidyIsQuiet(meaning, rest, d + NamesOf(obj, fields), BindFields(s, obj, fields, values), stack);
        }
      case If(test, body, orelse) =>
        if ExprNames(test) <= s.Keys {
          TidyIf(meaning, spec, d, s, stack);
        }
      case Assert(e) =>
        TidyIsQuiet(meaning, rest, d, s, stack);
      case Return(_) =>
      case Pass =>
    }
  }

  lemma {:induction false} TidyIf(meaning: Interp, spec: seq<Stmt>, d: set<Name>, s: Store, stack: seq<Header>)
    requires Tidy(spec) && d <= s.Keys && spec != [] && spec[0].If? && ExprNames(spec[0].test) <= s.Keys
    ensures Quiet(meaning, spec, d, s, stack)
    decreases spec, 0
  {
    var rest, branch := spec[1..], Taken(meaning, spec[0], s);
    TidyIsQuiet(meaning, branch, d, s, stack);
    var r := Read(meaning, branch, s, stack);
    ReadGrows(meaning, branch, s, stack);
    if TakesRest(spec[0]) {
      ReturnIsReached(meaning, spec[0].body, s, stack);
    } else if rest != [] {
      Stays(meaning, branch, s, stack);
    }
    if r.Falls? {
      TidyIsQuiet(meaning, rest, d, r.store, stack);
    }
  }

  /** Reading a specification forgets no name. */
  lemma {:induction false} ReadGrows(meaning: Interp, spec: seq<Stmt>, s: Store, stack: seq<Header>)
    ensures var r := Read(meaning, spec, s, stack); r.Returns? || r.Falls? ==> s.Keys <= r.store.Keys
    decreases spec
  {
    if spec != [] {
      var rest := spec[1..];
      match spec[0]
      case Assign(x, e) =>
        if ExprNames(e) <= s.Keys {
          ReadGrows(meaning, rest, s[Var(x) := Eval(meaning, e, s)], stack);
        }
      case PopHeader(obj, protocol, _) =>
        if stack != [] && stack[0].protocol == protocol {
          BindAgrees({}, s, s, obj, FieldsOf(protocol), stack[0].fields);
          ReadGrows(meaning, rest, BindFields(s, obj, FieldsOf(protocol), stack[0].fields), stack[1..]);
        }
      case Bind(obj, fields, e) =>
        if ExprNames(e) <= s.Keys {
          var values := Components(Eval(meaning, e, s));
          BindAgrees({}, s, s, obj, fields, values);
          ReadGrows(meaning, rest, BindFields(s, obj, fields, values), stack);
        }
      case If(test, body, orelse) =>
        if ExprNames(test) <= s.Keys {
          var branch := Taken(meaning, spec[0], s);
          ReadGrows(meaning, branch, s, stack);
          var r := Read(meaning, branch, s, stack);
          if r.Falls? {
            ReadGrows(meaning, rest, r.store, r.stack);
          }
        }
      case Assert(e) =>
        ReadGrows(meaning, rest, s, stack);
      case Return(_) =>
      case Pass =>
    }
  }

  /** A tidy specification keeps its meaning on every input. */
  lemma {:induction false} TidyIsPreserved(c: Context, spec: seq<Stmt>, state: set<Name>, vars: set<string>, s: Store)
    requires forall x :: Var(x) in s.Keys <==> x in vars
    requires state <= s.Keys && WellScoped(spec, s.Keys) && Tidy(spec)
    ensures Accepts(Exec(c.meaning, Translated(spec, vars, 0), s, c.received, c.seen), state, c.seen)
            <==> Allows(Read(c.meaning, spec, s, c.received), state, c.seen)
  {
    TidyIsQuiet(c.meaning, spec, s.Keys, s, c.received);
    SameObservations(c, spec, state, vars, s);
  }

  // ----- The flag of the load balancer's specification

  /** The flag is not assigned before a return, though it may be where the block falls through. */
  predicate LeavesUnset(spec: seq<Stmt>, flag: string)
    decreases spec
  {
    spec == [] || !MayLeave(spec) ||
    (match spec[0]
     case Assign(x, _) => x != flag && LeavesUnset(spec[1..], flag)
     case If(_, body, orelse) => LeavesUnset(body, flag) && LeavesUnset(orelse, flag) && !MayLeave(spec[1..])
     case Return(_) => true
     case PopHeader(_, _, _) => LeavesUnset(spec[1..], flag)
     case Bind(_, _, _) => LeavesUnset(spec[1..], flag)
     case Assert(_) => LeavesUnset(spec[1..], flag)
     case Pass => true)
  }

  lemma {:induction false} BindKeepsVar(s: Store, obj: string, fields: seq<string>, values: seq<Value>, x: string)
    requires Var(x) in s
    ensures Var(x) in BindFields(s, obj, fields, values) && BindFields(s, obj, fields, values)[Var(x)] == s[Var(x)]
    decreases |fields|
  {
    if fields != [] {
      BindKeepsVar(s[FieldOf(obj, fields[0]) := if values == [] then Int(0) else values[0]], obj, fields[1..],
                   if values == [] then [] else values[1..], x);
    }
  }

  lemma {:induction false} UnsetAtReturn(meaning: Interp, spec: seq<Stmt>, flag: string, s: Store, stack: seq<Header>)
    requires LeavesUnset(spec, flag) && Var(flag) in s
    ensures var r := Read(meaning, spec, s, stack);
            r.Returns? ==> Var(flag) in r.store && r.store[Var(flag)] == s[Var(flag)]
    decreases spec
  {
    if !MayLeave(spec) {
      Stays(meaning, spec, s, stack);
    } else {
      var rest := spec[1..];
      match spec[0]
      case Assign(x, e) =>
        if ExprNames(e) <= s.Keys {
          UnsetAtReturn(meaning, rest, flag, s[Var(x) := Eval(meaning, e, s)], stack);
        }
      case PopHeader(obj, protocol, _) =>
        if stack != [] && stack[0].protocol == protocol {
          BindKeepsVar(s, obj, FieldsOf(protocol), stack[0].fields, flag);
          UnsetAtReturn(meaning, rest, flag, BindFields(s, obj, FieldsOf(protocol), stack[0].fields), stack[1..]);
        }
      case Bind(obj, fields, e) =>
        if ExprNames(e) <= s.Keys {
          var values := Components(Eval(meaning, e, s));
          BindKeepsVar(s, obj, fields, values, flag);
          UnsetAtReturn(meaning, rest, flag, BindFields(s, obj, fields, values), stack);
        }
      case If(test, body, orelse) =>
        if ExprNames(test) <= s.Keys {
          var branch := Taken(meaning, spec[0], s);
          UnsetAtReturn(meaning, branch, flag, s, stack);
          var r := Read(meaning, branch, s, stack);
          if r.Falls? {
            Stays(meaning, rest, r.store, r.stack);
          }
        }
      case Assert(e) =>
        UnsetAtReturn(meaning, rest, flag, s, stack);
      case Return(_) =>
      case Pass =>
    }
  }

  /** What a flag guards does nothing while the flag is not set. */
  lemma {:induction false} FlagIsIdle(meaning: Interp, flag: string, body: seq<Stmt>, d: set<Name>, s: Store,
                                      stack: seq<Header>)
    requires d <= s.Keys && Var(flag) in s && !Truth(s[Var(flag)])
    ensures Idle(meaning, [If(Ref(Var(flag)), body, [])], d, s, stack)
  {
    var spec := [If(Ref(Var(flag)), body, [])];
    assert spec[1..] == [] && Eval(meaning, spec[0].test, s) == s[Var(flag)];
    assert Read(meaning, spec[0].orelse, s, stack) == Falls(s, stack);
    assert Read(meaning, spec, s, stack) == Falls(s, stack);
  }

  /** A conditional that may return, followed by statements under a flag, is quiet on every input if the flag is
      not set where it returns. */
  lemma {:induction false} FlaggedIsQuiet(meaning: Interp, flag: string, test: Expr, yes: seq<Stmt>, no: seq<Stmt>,
                                          body: seq<Stmt>,
                                          d: set<Name>, s: Store, stack: seq<Header>)
    requires no != [] && Tidy(yes) && Tidy(no) && Tidy(body) && !Pops(yes) && !Pops(no)
    requires LeavesUnset(yes, flag) && LeavesUnset(no, flag)
    requires d <= s.Keys && Var(flag) in s && !Truth(s[Var(flag)])
    ensures Quiet(meaning, [If(test, yes, no), If(Ref(Var(flag)), body, [])], d, s, stack)
  {
    var spec, rest := [If(test, yes, no), If(Ref(Var(flag)), body, [])], [If(Ref(Var(flag)), body, [])];
    assert spec[1..] == rest && rest[1..] == [];
    if ExprNames(test) <= s.Keys {
      var branch := Taken(meaning, spec[0], s);
      var r := Read(meaning, branch, s, stack);
      TidyIsQuiet(meaning, branch, d, s, stack);
      ReadGrows(meaning, branch, s, stack);
      StackIsUnread(meaning, branch, s, stack, stack);
      UnsetAtReturn(meaning, branch, flag, s, stack);
      if r.Returns? {
        FlagIsIdle(meaning, flag, body, d, r.store, stack);
      } else if r.Falls? {
        TidyIsQuiet(meaning, rest, d, r.store, stack);
      }
    }
  }
}
