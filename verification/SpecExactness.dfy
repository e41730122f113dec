/** Exactly when the translation keeps the meaning of a specification, and where it does not. */
module SpecExactness {
  import opened Options
  import opened SpecLanguage
  import opened SpecMeaning
  import opened SpecTranslator
  import opened SpecPreservation
  import opened SpecRunOn

  // ----- What two readings ask is the same for every observation exactly where they look the same

  /** An observation that meets a demand, with a value of choice wherever the demand leaves it open. */
  ghost function Witness(d: Demand, open: Value, final: Store): (seen: Observation)
    ensures Meets(seen, d) && seen.final == final
  {
    Observation(d.ports, seq(|d.headers|, i requires 0 <= i < |d.headers| => WitnessHeader(d.headers[i], open)), final)
  }

  ghost function WitnessHeader(p: Sent, open: Value): (h: Header)
    ensures SpecMeaning.Fits(h, p)
  {
    Header(p.protocol, seq(|p.fields|, j requires 0 <= j < |p.fields|
                                       => if p.fields[j].Some? then p.fields[j].value else open))
  }

  ghost function WitnessOf(d: Option<Demand>, final: Store): (seen: Observation)
    ensures MeetsAny(seen, d) && seen.final == final
  {
    if d.Some? then Witness(d.value, Int(0), final) else Observation([], [], final)
  }

  /** Demands that look the same; the headers of a packet that is not sent do not count. */
  ghost predicate SameDemand(d: Option<Demand>, d': Option<Demand>) {
    if d.Some? && d'.Some? then d.value.ports == d'.value.ports
                                && (d.value.ports != [] ==> d.value.headers == d'.value.headers)
    else d.None? && d'.None?
  }

  ghost predicate SameFinal(final: Option<Store>, final': Option<Store>, state: set<Name>) {
    || state == {}
    || (if final.Some? && final'.Some? then SameState(state, final.value, final'.value)
        else final.None? && final'.None?)
  }

  ghost predicate SameAsked(a: Asked, a': Asked, state: set<Name>) {
    if a.Asked? && a'.Asked? then SameDemand(a.demand, a'.demand) && SameFinal(a.final, a'.final, state)
    else a.Rejected? && a'.Rejected?
  }

  /** The final state asked for, if any, has a value for every part of the state. */
  ghost predicate Definite(a: Asked, state: set<Name>) {
    a.Asked? && a.final.Some? ==> state <= a.final.value.Keys
  }

  /** A field that one pattern fixes and another leaves open or fixes otherwise. */
  ghost predicate FixesMore(p: Sent, p': Sent, j: nat) {
    j < |p.fields| == |p'.fields| && p'.fields[j].Some? && p.fields[j] != p'.fields[j]
  }

  /** A header that fits one pattern and not the other. */
  lemma {:induction false} TellsHeaders(d: Demand, d': Demand, i: nat, j: nat) returns (seen: Observation)
    requires d.ports == d'.ports != [] && i < |d.headers| == |d'.headers| && FixesMore(d.headers[i], d'.headers[i], j)
    ensures Meets(seen, d) && !Meets(seen, d')
  {
    var v := d'.headers[i].fields[j].value;
    var open := if v == Int(0) then Int(1) else Int(0);
    seen := Witness(d, open, map[]);
    assert seen.headers[i].fields[j] != v;
  }

  /** An observation that meets one of two demands that look different, and not the other. */
  lemma {:induction false} TellsDemands(d: Demand, d': Demand) returns (seen: Observation)
    requires !SameDemand(Some(d), Some(d'))
    ensures Meets(seen, d) != Meets(seen, d')
  {
    seen := Witness(d, Int(0), map[]);
    if d.ports == d'.ports && |d.headers| == |d'.headers| {
      var i :| 0 <= i < |d.headers| && d.headers[i] != d'.headers[i];
      var p, p' := d.headers[i], d'.headers[i];
      if p.protocol == p'.protocol && |p.fields| == |p'.fields| {
        var j :| 0 <= j < |p.fields| && p.fields[j] != p'.fields[j];
        if p'.fields[j].Some? {
          seen := TellsHeaders(d, d', i, j);
        } else {
          seen := TellsHeaders(d', d, i, j);
        }
      } else {
        assert !SpecMeaning.Fits(seen.headers[i], p');
      }
    }
  }

  lemma {:induction false} Tells(d: Option<Demand>, d': Option<Demand>) returns (seen: Observation)
    requires !SameDemand(d, d')
    ensures MeetsAny(seen, d) != MeetsAny(seen, d')
  {
    if d.Some? && d'.Some? {
      seen := TellsDemands(d.value, d'.value);
    } else {
      var x := if d.Some? then d.value else d'.value;
      seen := Observation(x.ports + [Int(0)], [], map[]);
    }
  }

  ghost function FinalOf(a: Asked): (final: Store) {
    if a.Asked? && a.final.Some? then a.final.value else map[]
  }

  /** An observation that what is asked in two different ways tells apart. */
  lemma {:induction false} Distinguished(a: Asked, a': Asked, state: set<Name>) returns (seen: Observation)
    requires Definite(a, state) && Definite(a', state) && !SameAsked(a, a', state)
    ensures Grants(a, state, seen) != Grants(a', state, seen)
  {
    if a.Rejected? || a'.Rejected? {
      var x := if a.Asked? then a else a';
      seen := WitnessOf(x.demand, FinalOf(x));
    } else if !SameDemand(a.demand, a'.demand) {
      seen := Tells(a.demand, a'.demand);
      seen := seen.(final := if MeetsAny(seen, a.demand) then FinalOf(a) else FinalOf(a'));
    } else if a.final.Some? && a'.final.Some? {
      seen := WitnessOf(a.demand, FinalOf(a));
    } else {
      seen := WitnessOf(a.demand, map[]);
    }
  }

  lemma {:induction false} AskedExactly(a: Asked, a': Asked, state: set<Name>)
    requires Definite(a, state) && Definite(a', state)
    ensures (forall seen :: Grants(a, state, seen) <==> Grants(a', state, seen)) <==> SameAsked(a, a', state)
  {
    if !SameAsked(a, a', state) {
      var seen := Distinguished(a, a', state);
      assert !(Grants(a, state, seen) <==> Grants(a', state, seen));
    }
  }

  lemma {:induction false} AllowsAsked(r: Reading, state: set<Name>, seen: Observation)
    ensures Allows(r, state, seen) <==> Grants(AskedBy(r), state, seen)
  {
  }

  lemma {:induction false} AcceptsAsked(a: Asked, t: Status, d: set<Name>, state: set<Name>, seen: Observation)
    requires Answers(a, t, d, seen) && state <= d
    ensures Accepts(t, state, seen) <==> Grants(a, state, seen)
  {
  }

  /** Reading on leaves a value for every declared name. */
  lemma {:induction false} ReadOnIsDefinite(meaning: Interp, received: seq<Header>, spec: seq<Stmt>, state: set<Name>,
                                            vars: set<string>, s: Store)
    requires (forall x :: Var(x) in s.Keys <==> x in vars) && state <= s.Keys && WellScoped(spec, s.Keys)
    ensures Definite(ReadOn(meaning, spec, s, received), state)
  {
    var a := ReadOn(meaning, spec, s, received);
    if a.Asked? {
      var c := Context(meaning, received, WitnessOf(a.demand, map[]));
      assert received[0..] == received;
      Runs(c, spec, s.Keys, vars, 0, s, s, received);
    }
  }

  /** For every well-scoped specification and every input: the translation keeps the meaning for every observation if
      and only if reading the specification on, past its returns and without the pops of its branches, asks for the
      same demand and the same state. */
  lemma {:induction false} KeepsMeaningExactly(meaning: Interp, received: seq<Header>, spec: seq<Stmt>,
                                               state: set<Name>, vars: set<string>, s: Store)
    requires (forall x :: Var(x) in s.Keys <==> x in vars) && state <= s.Keys && WellScoped(spec, s.Keys)
    ensures (forall seen :: Accepts(Exec(meaning, Translated(spec, vars, 0), s, received, seen), state, seen)
                            <==> Allows(Read(meaning, spec, s, received), state, seen))
            <==> SameAsked(ReadOn(meaning, spec, s, received), AskedBy(Read(meaning, spec, s, received)), state)
  {
    var a, a' := ReadOn(meaning, spec, s, received), AskedBy(Read(meaning, spec, s, received));
    ReadOnIsDefinite(meaning, received, spec, state, vars, s);
    ReadGrows(meaning, spec, s, received);
    AskedExactly(a, a', state);
    forall seen: Observation
      ensures Accepts(Exec(meaning, Translated(spec, vars, 0), s, received, seen), state, seen)
              <==> Grants(a, state, seen)
      ensures Allows(Read(meaning, spec, s, received), state, seen) <==> Grants(a', state, seen)
    {
      assert received[0..] == received;
      Runs(Context(meaning, received, seen), spec, s.Keys, vars, 0, s, s, received);
      AcceptsAsked(a, Exec(meaning, Translated(spec, vars, 0), s, received, seen), s.Keys, state, seen);
      AllowsAsked(Read(meaning, spec, s, received), state, seen);
    }
  }

  // ----- A conditional that returns

  ghost predicate Implies(d: Demand, d': Demand) {
    forall seen: Observation :: Meets(seen, d) ==> Meets(seen, d')
  }

  /** After a return with a demand and a store, a reading of what follows that asks for nothing new and leaves
      the state as it is. */
  ghost predicate Harmless(q: Reading, demand: Demand, s: Store, state: set<Name>) {
    match q
    case Fails => false
    case Undefined => false
    case Ignored => state == {}
    case Returns(d, t) => SameState(state, t, s) && Implies(demand, d)
    case Falls(t, _) => SameState(state, t, s)
  }

  /** A conditional, without the rest moved into it, that returns on these inputs; it and the rest are quiet. */
  ghost predicate ReturnsFirst(meaning: Interp, spec: seq<Stmt>, state: set<Name>, d: set<Name>, s: Store,
                               stack: seq<Header>) {
    && spec != [] && spec[0].If? && !TakesRest(spec[0]) && ExprNames(spec[0].test) <= d <= s.Keys && state <= d
    && WellScoped(spec, d)
    && var r := Read(meaning, Taken(meaning, spec[0], s), s, stack);
    && r.Returns? && d <= r.store.Keys
    && Quiet(meaning, Taken(meaning, spec[0], s), d, s, stack)
    && Quiet(meaning, spec[1..], d, r.store, stack)
  }

  /** After a return the translation goes on, and asks as well for what follows to hold. */
  lemma {:induction false} RunsOnAfter(c: Context, spec: seq<Stmt>, state: set<Name>, d: set<Name>, vars: set<string>,
                                  depth: nat,
                                  s: Store, t: Store, stack: seq<Header>, r: Reading)
    requires ReturnsFirst(c.meaning, spec, state, d, s, stack) && At(c, d, vars, depth, s, t, stack)
    requires r == Read(c.meaning, Taken(c.meaning, spec[0], s), s, stack)
    ensures Read(c.meaning, spec, s, stack) == r
    ensures Accepts(Exec(c.meaning, Translated(spec, vars, depth), t, c.received, c.seen), state, c.seen)
            <==> Meets(c.seen, r.demand) && Allows(Read(c.meaning, spec[1..], r.store, stack), state, c.seen)
  {
    var branch := Taken(c.meaning, spec[0], s);
    Preserves(c, branch, d, vars, depth, s, t, stack);
    var e := AfterBranch(c, branch, vars, depth, t);
    MatchesClose(r, Exec(c.meaning, Translated(branch, vars, depth), t, c.received, c.seen), t, d, c.seen);
    BranchRuns(c, spec, d, vars, depth, s, t);
    if e.Ok? {
      Preserves(c, spec[1..], d, vars, depth, r.store, e.store, stack);
      AcceptsAllows(Read(c.meaning, spec[1..], r.store, stack),
                    Exec(c.meaning, Translated(spec[1..], vars, depth), e.store, c.received, c.seen), d, state, c.seen);
    }
  }

  lemma {:induction false} AcceptsAllows(r: Reading, t: Status, d: set<Name>, state: set<Name>, seen: Observation)
    requires Matches(r, t, d, seen) && state <= d
    ensures Accepts(t, state, seen) <==> Allows(r, state, seen)
  {
  }

  /** An observation that tells what follows a return from nothing. */
  lemma {:induction false} Distinguishes(q: Reading, demand: Demand, s: Store,
                                         state: set<Name>) returns (seen: Observation)
    requires state <= s.Keys && !Harmless(q, demand, s, state)
    ensures !(Meets(seen, demand) && Allows(q, state, seen)
              <==> Meets(seen, demand) && SameState(state, s, seen.final))
  {
    seen := Witness(demand, Int(0), s);
    match q {
      case Ignored =>
        seen := Witness(demand, Int(0), map[]);
      case Returns(d, t) =>
        if SameState(state, t, s) {
          var other: Observation :| Meets(other, demand) && !Meets(other, d);
          seen := Observation(other.ports, other.headers, s);
        }
      case Falls(_, _) =>
      case Fails =>
      case Undefined =>
    }
  }

  /** Where a conditional returns and statements follow it, the translation keeps the meaning for every
      observation if and only if reading those statements after the return would be harmless. */
  lemma {:induction false} ReturnedExactly(meaning: Interp, received: seq<Header>, spec: seq<Stmt>,
                                           state: set<Name>, d: set<Name>,
                                           vars: set<string>, s: Store, t: Store, r: Reading)
    requires ReturnsFirst(meaning, spec, state, d, s, received)
    requires (forall x :: Var(x) in d <==> x in vars) && t.Keys == d && Agree(d, t, s)
    requires r == Read(meaning, Taken(meaning, spec[0], s), s, received)
    ensures (forall seen :: Accepts(Exec(meaning, Translated(spec, vars, 0), t, received, seen), state, seen)
                            <==> Allows(Read(meaning, spec, s, received), state, seen))
            <==> Harmless(Read(meaning, spec[1..], r.store, received), r.demand, r.store, state)
  {
    var q := Read(meaning, spec[1..], r.store, received);
    assert received[0..] == received;
    if Harmless(q, r.demand, r.store, state) {
      forall seen: Observation
        ensures Accepts(Exec(meaning, Translated(spec, vars, 0), t, received, seen), state, seen)
                <==> Allows(Read(meaning, spec, s, received), state, seen)
      {
        RunsOnAfter(Context(meaning, received, seen), spec, state, d, vars, 0, s, t, received, r);
      }
    } else {
      var seen := Distinguishes(q, r.demand, r.store, state);
      RunsOnAfter(Context(meaning, received, seen), spec, state, d, vars, 0, s, t, received, r);
      assert !(Accepts(Exec(meaning, Translated(spec, vars, 0), t, received, seen), state, seen)
               <==> Allows(Read(meaning, spec, s, received), state, seen));
    }
  }

  // ----- A conditional that pops headers

  /** A conditional, without the rest moved into it, that falls through on these inputs, popped headers or not; it
      and the rest are quiet. */
  ghost predicate FallsFirst(meaning: Interp, spec: seq<Stmt>, state: set<Name>, d: set<Name>, s: Store,
                             stack: seq<Header>) {
    && spec != [] && spec[0].If? && !TakesRest(spec[0]) && ExprNames(spec[0].test) <= d <= s.Keys && state <= d
    && WellScoped(spec, d)
    && var r := Read(meaning, Taken(meaning, spec[0], s), s, stack);
    && r.Falls? && Quiet(meaning, Taken(meaning, spec[0], s), d, s, stack)
    && Quiet(meaning, spec[1..], d, r.store, stack)
  }

  /** After the branch the translation reads the rest from the headers the branch started with. */
  lemma {:induction false} PopsAgain(c: Context, spec: seq<Stmt>, state: set<Name>, d: set<Name>, vars: set<string>,
                                     depth: nat, s: Store, t: Store, stack: seq<Header>, r: Reading)
    requires FallsFirst(c.meaning, spec, state, d, s, stack) && At(c, d, vars, depth, s, t, stack)
    requires r == Read(c.meaning, Taken(c.meaning, spec[0], s), s, stack)
    ensures Read(c.meaning, spec, s, stack) == Read(c.meaning, spec[1..], r.store, r.stack)
    ensures Accepts(Exec(c.meaning, Translated(spec, vars, depth), t, c.received, c.seen), state, c.seen)
            <==> Allows(Read(c.meaning, spec[1..], r.store, stack), state, c.seen)
  {
    var branch := Taken(c.meaning, spec[0], s);
    Preserves(c, branch, d, vars, depth, s, t, stack);
    var e := AfterBranch(c, branch, vars, depth, t);
    MatchesClose(r, Exec(c.meaning, Translated(branch, vars, depth), t, c.received, c.seen), t, d, c.seen);
    BranchRuns(c, spec, d, vars, depth, s, t);
    Preserves(c, spec[1..], d, vars, depth, r.store, e.store, stack);
    AcceptsAllows(Read(c.meaning, spec[1..], r.store, stack),
                  Exec(c.meaning, Translated(spec[1..], vars, depth), e.store, c.received, c.seen), d, state, c.seen);
  }

  lemma {:induction false} PopsAgainAsked(meaning: Interp, received: seq<Header>, seen: Observation, spec: seq<Stmt>,
                                          state: set<Name>, d: set<Name>, vars: set<string>, s: Store, t: Store,
                                          r: Reading)
    requires FallsFirst(meaning, spec, state, d, s, received)
    requires (forall x :: Var(x) in d <==> x in vars) && t.Keys == d && Agree(d, t, s)
    requires r == Read(meaning, Taken(meaning, spec[0], s), s, received)
    ensures Accepts(Exec(meaning, Translated(spec, vars, 0), t, received, seen), state, seen)
            <==> Grants(AskedBy(Read(meaning, spec[1..], r.store, received)), state, seen)
    ensures Allows(Read(meaning, spec, s, received), state, seen)
            <==> Grants(AskedBy(Read(meaning, spec[1..], r.store, r.stack)), state, seen)
  {
    assert received[0..] == received;
    PopsAgain(Context(meaning, received, seen), spec, state, d, vars, 0, s, t, received, r);
    AllowsAsked(Read(meaning, spec[1..], r.store, received), state, seen);
    AllowsAsked(Read(meaning, spec[1..], r.store, r.stack), state, seen);
  }

  /** Where a conditional falls through having popped headers and statements follow it, the translation keeps the
      meaning for every observation if and only if those statements ask for the same from the headers before the
      conditional as from the headers after it. */
  lemma {:induction false} PoppedExactly(meaning: Interp, received: seq<Header>, spec: seq<Stmt>,
                                         state: set<Name>, d: set<Name>,
                                         vars: set<string>, s: Store, t: Store, r: Reading)
    requires FallsFirst(meaning, spec, state, d, s, received)
    requires (forall x :: Var(x) in d <==> x in vars) && t.Keys == d && Agree(d, t, s)
    requires r == Read(meaning, Taken(meaning, spec[0], s), s, received)
    ensures (forall seen :: Accepts(Exec(meaning, Translated(spec, vars, 0), t, received, seen), state, seen)
                            <==> Allows(Read(meaning, spec, s, received), state, seen))
            <==> SameAsked(AskedBy(Read(meaning, spec[1..], r.store, received)),
                           AskedBy(Read(meaning, spec[1..], r.store, r.stack)), state)
  {
    var q, q' := Read(meaning, spec[1..], r.store, received), Read(meaning, spec[1..], r.store, r.stack);
    ReadGrows(meaning, Taken(meaning, spec[0], s), s, received);
    ReadGrows(meaning, spec[1..], r.store, received);
    ReadGrows(meaning, spec[1..], r.store, r.stack);
    if SameAsked(AskedBy(q), AskedBy(q'), state) {
      AskedExactly(AskedBy(q), AskedBy(q'), state);
      forall seen: Observation
        ensures Accepts(Exec(meaning, Translated(spec, vars, 0), t, received, seen), state, seen)
                <==> Allows(Read(meaning, spec, s, received), state, seen)
      {
        PopsAgainAsked(meaning, received, seen, spec, state, d, vars, s, t, r);
        assert Grants(AskedBy(q), state, seen) <==> Grants(AskedBy(q'), state, seen);
      }
    } else {
      var seen := Distinguished(AskedBy(q), AskedBy(q'), state);
      PopsAgainAsked(meaning, received, seen, spec, state, d, vars, s, t, r);
      assert !(Accepts(Exec(meaning, Translated(spec, vars, 0), t, received, seen), state, seen)
               <==> Allows(Read(meaning, spec, s, received), state, seen));
    }
  }

  // ----- Two specifications that lose their meaning

  const NOTHING := Outcome([], [])

  lemma {:induction false} OneReturn(meaning: Interp, o: Outcome, s: Store, stack: seq<Header>,
                                     received: seq<Header>, seen: Observation)
    ensures Read(meaning, [Return(o)], s, stack) == Leave(meaning, o, s)
    ensures Translated([Return(o)], {}, 0) == [CheckSent(o)]
    ensures Exec(meaning, [CheckSent(o)], s, received, seen) == CheckedOutcome(meaning, o, s, seen)
    ensures WellScoped([Return(o)], {}) <==> OutcomeNames(o) <= {}
  {
    assert [Return(o)][1..] == [] && [CheckSent(o)][1..] == [];
  }

  lemma {:induction false} OneAssert()
    ensures Translated([Assert(Num(1))], {}, 0) == [Check(Num(1))] && WellScoped([Assert(Num(1))], {})
  {
    assert [Assert(Num(1))][1..] == [];
  }

  /** What follows a conditional with two branches is checked even where the conditional has returned. */
  lemma {:induction false} ReturnIsForgotten(meaning: Interp, spec: seq<Stmt>, sent: Outcome, seen: Observation)
    requires sent == Outcome([Num(1)], []) && seen == Observation([], [], map[])
    requires spec == [If(Num(1), [Return(NOTHING)], [Assert(Num(1))]), Return(sent)]
    ensures WellScoped(spec, {}) && Allows(Read(meaning, spec, map[], []), {}, seen)
    ensures !Accepts(Exec(meaning, Translated(spec, {}, 0), map[], [], seen), {}, seen)
  {
    OneReturn(meaning, NOTHING, map[], [], [], seen);
    OneReturn(meaning, sent, map[], [], [], seen);
    OneAssert();
    assert spec[1..] == [Return(sent)] && OutcomeNames(sent) == {};
    var code := [Branch(Num(1), [CheckSent(NOTHING)], [Check(Num(1))]), CheckSent(sent)];
    assert Translated(spec, {}, 0) == code && code[1..] == [CheckSent(sent)];
    assert Exec(meaning, [CheckSent(NOTHING)], map[], [], seen) == Ok(map[]);
    assert Close(map[], Ok(map[])) == Ok(map[]);
  }

  lemma {:induction false} OnePop(meaning: Interp, obj: string, protocol: Protocol, s: Store, stack: seq<Header>,
                                  received: seq<Header>,
                                  seen: Observation)
    requires stack != [] && stack[0].protocol == protocol
    ensures Read(meaning, [PopHeader(obj, protocol, NOTHING)], s, stack)
         == Falls(BindFields(s, obj, FieldsOf(protocol), stack[0].fields), stack[1..])
    ensures Translated([PopHeader(obj, protocol, NOTHING)], {}, 0) == [SwitchHeader(0, obj, protocol, NOTHING, [])]
    ensures received != [] && received[0].protocol == protocol ==>
              Exec(meaning, [SwitchHeader(0, obj, protocol, NOTHING, [])], s, received, seen)
              == Close(s, Ok(BindFields(s, obj, FieldsOf(protocol), received[0].fields)))
  {
    assert [PopHeader(obj, protocol, NOTHING)][1..] == [] && [SwitchHeader(0, obj, protocol, NOTHING, [])][1..] == [];
  }

  lemma {:induction false} OnePopIsScoped(obj: string, protocol: Protocol)
    ensures WellScoped([PopHeader(obj, protocol, NOTHING)], {})
  {
    assert [PopHeader(obj, protocol, NOTHING)][1..] == [] && OutcomeNames(NOTHING) == {};
  }

  /** A header popped in a branch is popped again by what follows. */
  lemma {:induction false} PopIsForgotten(meaning: Interp, spec: seq<Stmt>, p: Protocol, p': Protocol, x: string,
                                          x': string, received: seq<Header>, seen: Observation)
    requires spec == [If(Num(1), [PopHeader(x, p, NOTHING)], [Assert(Num(1))]), PopHeader(x', p', NOTHING)]
    requires |received| == 2 && received[0].protocol == p && received[1].protocol == p' != p
    requires |received[0].fields| == |FieldsOf(p)| && |received[1].fields| == |FieldsOf(p')|
    requires seen == Observation([Int(1)], [], map[])
    ensures WellScoped(spec, {}) && Allows(Read(meaning, spec, map[], received), {}, seen)
    ensures !Accepts(Exec(meaning, Translated(spec, {}, 0), map[], received, seen), {}, seen)
  {
    var pop, pop' := PopHeader(x, p, NOTHING), PopHeader(x', p', NOTHING);
    var bound := BindFields(map[], x, FieldsOf(p), received[0].fields);
    OneAssert();
    OnePopIsScoped(x, p);
    OnePopIsScoped(x', p');
    OnePop(meaning, x, p, map[], received, received, seen);
    OnePop(meaning, x', p', bound, received[1..], received, seen);
    assert spec[1..] == [pop'];
    var switch, switch' := SwitchHeader(0, x, p, NOTHING, []), SwitchHeader(0, x', p', NOTHING, []);
    var code := [Branch(Num(1), [switch], [Check(Num(1))]), switch'];
    assert Translated(spec, {}, 0) == code && code[1..] == [switch'] && [switch'][1..] == [];
    assert Close(map[], Close(map[], Ok(bound))) == Ok(map[]);
    assert Exec(meaning, [switch'], map[], received, seen) == Bad;
  }
}
