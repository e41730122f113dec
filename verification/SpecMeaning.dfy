/** What a specification means when its returns end it, and what its translation means, which runs on. */
module SpecMeaning {
  import opened Options
  import opened SpecLanguage

  /** What was seen of a packet's processing: where it was sent, with what headers, and the state it left. */
  datatype Observation = Observation(ports: seq<Value>, headers: seq<Header>, final: Store)

  datatype Sent = Sent(protocol: Protocol, fields: seq<Option<Value>>)

  /** An outcome with its expressions evaluated. */
  datatype Demand = Demand(ports: seq<Value>, headers: seq<Sent>)

  ghost function EvalField(meaning: Interp, e: Option<Expr>, s: Store): (v: Option<Value>)
    requires e.Some? ==> ExprNames(e.value) <= s.Keys
  {
    match e case None => None case Some(x) => Some(Eval(meaning, x, s))
  }

  ghost function EvalPattern(meaning: Interp, p: Pattern, s: Store): (r: Sent)
    requires PatternNames(p) <= s.Keys
  {
    Sent(p.protocol, seq(|p.fields|, j requires 0 <= j < |p.fields|
      && (p.fields[j].Some? ==> ExprNames(p.fields[j].value) <= s.Keys)
                                     => EvalField(meaning, p.fields[j], s)))
  }

  ghost function DemandOf(meaning: Interp, o: Outcome, s: Store): (d: Demand)
    requires OutcomeNames(o) <= s.Keys
  {
    Demand(seq(|o.ports|, i requires 0 <= i < |o.ports|
      && ExprNames(o.ports[i]) <= s.Keys => Eval(meaning, o.ports[i], s)),
           seq(|o.headers|, i requires 0 <= i < |o.headers| && PatternNames(o.headers[i]) <= s.Keys
                            => EvalPattern(meaning, o.headers[i], s)))
  }

  ghost predicate Fits(h: Header, p: Sent) {
    && h.protocol == p.protocol && |h.fields| == |p.fields|
    && forall j :: 0 <= j < |p.fields| && p.fields[j].Some? ==> h.fields[j] == p.fields[j].value
  }

  /** A packet that is not sent has no headers to check. */
  ghost predicate Meets(seen: Observation, d: Demand) {
    if d.ports == [] then seen.ports == []
    else seen.ports == d.ports && |seen.headers| == |d.headers|
         && forall i :: 0 <= i < |d.headers| ==> Fits(seen.headers[i], d.headers[i])
  }

  ghost predicate Truth(v: Value) { v != Int(0) }

  ghost function BindFields(s: Store, obj: string, fields: seq<string>, values: seq<Value>): (s': Store)
    decreases |fields|
  {
    if fields == [] then s
    else BindFields(s[FieldOf(obj, fields[0]) := if values == [] then Int(0) else values[0]], obj, fields[1..],
                    if values == [] then [] else values[1..])
  }

  function Components(v: Value): (values: seq<Value>) { if v.Struct? then v.fields else [] }

  // ----- The reading in which a return ends the specification

  datatype Reading =
    | Fails
    | Ignored
    | Undefined
    | Returns(demand: Demand, store: Store)
    | Falls(store: Store, stack: seq<Header>)

  ghost function Leave(meaning: Interp, o: Outcome, s: Store): (r: Reading) {
    if OutcomeNames(o) <= s.Keys then Returns(DemandOf(meaning, o, s), s) else Undefined
  }

  ghost function Read(meaning: Interp, spec: seq<Stmt>, s: Store, stack: seq<Header>): (r: Reading)
    decreases spec
  {
    if spec == [] then Falls(s, stack)
    else
      var rest := spec[1..];
      match spec[0]
      case Assign(x, e) =>
        if ExprNames(e) <= s.Keys then Read(meaning, rest, s[Var(x) := Eval(meaning, e, s)], stack) else Undefined
      case PopHeader(obj, protocol, onMismatch) =>
        if stack != [] && stack[0].protocol == protocol
        then Read(meaning, rest, BindFields(s, obj, FieldsOf(protocol), stack[0].fields), stack[1..])
        else Leave(meaning, onMismatch, s)
      case Bind(obj, fields, e) =>
        if ExprNames(e) <= s.Keys
        then Read(meaning, rest, BindFields(s, obj, fields, Components(Eval(meaning, e, s))), stack)
        else Undefined
      case If(test, body, orelse) =>
        if !(ExprNames(test) <= s.Keys) then Undefined
        else
          var r := if Truth(Eval(meaning, test, s)) then Read(meaning, body, s, stack)
                   else Read(meaning, orelse, s, stack);
          if r.Falls? then Read(meaning, rest, r.store, r.stack) else r
      case Assert(e) =>
        if !(ExprNames(e) <= s.Keys) then Undefined
        else if Truth(Eval(meaning, e, s)) then Read(meaning, rest, s, stack) else Fails
      case Return(o) => Leave(meaning, o, s)
      case Pass => Ignored
  }

  /** The observations a specification allows. */
  ghost predicate Allows(r: Reading, state: set<Name>, seen: Observation) {
    match r
    case Fails => false
    case Undefined => false
    case Ignored => true
    case Returns(demand, s) => Meets(seen, demand) && SameState(state, s, seen.final)
    case Falls(s, _) => SameState(state, s, seen.final)
  }

  ghost predicate SameState(state: set<Name>, s: Store, t: Store) {
    forall x :: x in state ==> x in s && x in t && s[x] == t[x]
  }

  // ----- The translation, which runs on

  datatype Status = Bad | Cut | Stuck | Ok(store: Store)

  ghost function Close(s: Store, r: Status): (r': Status) {
    if r.Ok? then Ok(map x | x in s && x in r.store :: r.store[x]) else r
  }

  ghost function CheckedOutcome(meaning: Interp, o: Outcome, s: Store, seen: Observation): (r: Status) {
    if !(OutcomeNames(o) <= s.Keys) then Stuck else if Meets(seen, DemandOf(meaning, o, s)) then Ok(s) else Bad
  }

  /** Variables are declared once in their block, and are gone when the block ends. */
  ghost function Exec(meaning: Interp, code: seq<Code>, s: Store, received: seq<Header>,
                      seen: Observation): (r: Status)
    decreases code
  {
    if code == [] then Ok(s)
    else
      var r :=
        match code[0]
        case Declare(x, e) =>
          if ExprNames(e) <= s.Keys && Var(x) !in s then Ok(s[Var(x) := Eval(meaning, e, s)]) else Stuck
        case Set(x, e) =>
          if ExprNames(e) <= s.Keys && Var(x) in s then Ok(s[Var(x) := Eval(meaning, e, s)]) else Stuck
        case Branch(test, yes, no) =>
          if !(ExprNames(test) <= s.Keys) then Stuck
          else if Truth(Eval(meaning, test, s)) then Close(s, Exec(meaning, yes, s, received, seen))
          else Close(s, Exec(meaning, no, s, received, seen))
        case Check(e) =>
          if !(ExprNames(e) <= s.Keys) then Stuck else if Truth(Eval(meaning, e, s)) then Ok(s) else Bad
        case CheckSent(o) => CheckedOutcome(meaning, o, s, seen)
        case AssumeFalse => Cut
        case SwitchHeader(depth, obj, protocol, onMismatch, inner) =>
          if depth < |received| && received[depth].protocol == protocol
          then Close(s, Exec(meaning, inner, BindFields(s, obj, FieldsOf(protocol), received[depth].fields),
                             received, seen))
          else CheckedOutcome(meaning, onMismatch, s, seen)
        case SwitchObject(obj, fields, e, inner) =>
          if ExprNames(e) <= s.Keys
          then Close(s, Exec(meaning, inner, BindFields(s, obj, fields, Components(Eval(meaning, e, s))),
                             received, seen))
          else Stuck;
      if r.Ok? then Exec(meaning, code[1..], r.store, received, seen) else r
  }

  /** The translation is followed by a check of the final state. */
  ghost predicate Accepts(r: Status, state: set<Name>, seen: Observation) {
    match r
    case Bad => false
    case Stuck => false
    case Cut => true
    case Ok(s) => SameState(state, s, seen.final)
  }

  // ----- Stores that agree

  ghost predicate Agree(d: set<Name>, t: Store, s: Store) {
    d <= t.Keys && d <= s.Keys && forall x :: x in d ==> t[x] == s[x]
  }

  lemma {:induction false} EvalAgrees(meaning: Interp, e: Expr, d: set<Name>, t: Store, s: Store)
    requires ExprNames(e) <= d && Agree(d, t, s)
    ensures Eval(meaning, e, t) == Eval(meaning, e, s)
    decreases e
  {
    if e.Call? {
      forall i | 0 <= i < |e.args|
        ensures ExprNames(e.args[i]) <= d && Eval(meaning, e.args[i], t) == Eval(meaning, e.args[i], s)
      {
        assert ExprNames(e.args[i]) <= d;
        EvalAgrees(meaning, e.args[i], d, t, s);
      }
      assert seq(|e.args|, i requires 0 <= i < |e.args|
             && ExprNames(e.args[i]) <= t.Keys => Eval(meaning, e.args[i], t))
          == seq(|e.args|, i requires 0 <= i < |e.args|
            && ExprNames(e.args[i]) <= s.Keys => Eval(meaning, e.args[i], s));
    }
  }

  lemma {:induction false} PatternAgrees(meaning: Interp, p: Pattern, d: set<Name>, t: Store, s: Store)
    requires PatternNames(p) <= d && Agree(d, t, s)
    ensures EvalPattern(meaning, p, t) == EvalPattern(meaning, p, s)
  {
    forall j | 0 <= j < |p.fields| && p.fields[j].Some?
      ensures ExprNames(p.fields[j].value) <= d
              && Eval(meaning, p.fields[j].value, t) == Eval(meaning, p.fields[j].value, s)
    {
      assert ExprNames(p.fields[j].value) <= d;
      EvalAgrees(meaning, p.fields[j].value, d, t, s);
    }
  }

  lemma {:induction false} DemandAgrees(meaning: Interp, o: Outcome, d: set<Name>, t: Store, s: Store)
    requires OutcomeNames(o) <= d && Agree(d, t, s)
    ensures DemandOf(meaning, o, t) == DemandOf(meaning, o, s)
  {
    forall i | 0 <= i < |o.ports|
      ensures ExprNames(o.ports[i]) <= d && Eval(meaning, o.ports[i], t) == Eval(meaning, o.ports[i], s)
    {
      assert ExprNames(o.ports[i]) <= d;
      EvalAgrees(meaning, o.ports[i], d, t, s);
    }
    forall i | 0 <= i < |o.headers|
      ensures PatternNames(o.headers[i]) <= d
      ensures EvalPattern(meaning, o.headers[i], t) == EvalPattern(meaning, o.headers[i], s)
    {
      assert PatternNames(o.headers[i]) <= d;
      PatternAgrees(meaning, o.headers[i], d, t, s);
    }
  }

  lemma {:induction false} BindAgrees(d: set<Name>, t: Store, s: Store, obj: string, fields: seq<string>,
                                      values: seq<Value>)
    requires Agree(d, t, s)
    ensures Agree(d + NamesOf(obj, fields), BindFields(t, obj, fields, values), BindFields(s, obj, fields, values))
    ensures BindFields(t, obj, fields, values).Keys == t.Keys + NamesOf(obj, fields)
    decreases |fields|
  {
    if fields != [] {
      var x, v := FieldOf(obj, fields[0]), if values == [] then Int(0) else values[0];
      BindAgrees(d + {x}, t[x := v], s[x := v], obj, fields[1..], if values == [] then [] else values[1..]);
      NamesSplit(obj, fields);
      assert d + NamesOf(obj, fields) == d + {x} + NamesOf(obj, fields[1..]);
    }
  }

  lemma {:induction false} NamesSplit(obj: string, fields: seq<string>)
    requires fields != []
    ensures NamesOf(obj, fields) == {FieldOf(obj, fields[0])} + NamesOf(obj, fields[1..])
  {
    forall x | x in NamesOf(obj, fields)
      ensures x == FieldOf(obj, fields[0]) || x in NamesOf(obj, fields[1..])
    {
      var i :| 0 <= i < |fields| && x == FieldOf(obj, fields[i]);
      if i > 0 {
        assert fields[1..][i - 1] == fields[i];
      }
    }
    forall x | x in NamesOf(obj, fields[1..])
      ensures x in NamesOf(obj, fields)
    {
      var i :| 0 <= i < |fields[1..]| && x == FieldOf(obj, fields[1..][i]);
      assert fields[i + 1] == fields[1..][i];
    }
  }
}
