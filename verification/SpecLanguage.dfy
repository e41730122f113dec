/** The language of specifications, and of the code a specification is translated to. */
module SpecLanguage {
  import opened Options

  datatype Value = Int(n: int) | Struct(ctor: string, fields: seq<Value>)

  /** A variable, or a field of a bound object. */
  datatype Name = Var(id: string) | FieldOf(obj: string, field: string)

  /** Constants, names, and operators or calls. */
  datatype Expr = Num(n: int) | Ref(name: Name) | Call(head: string, args: seq<Expr>)

  datatype Protocol = Ether | Ipv4 | TcpUdp

  datatype Header = Header(protocol: Protocol, fields: seq<Value>)

  /** A header that a packet is sent with; a field without an expression may be anything. */
  datatype Pattern = Pattern(protocol: Protocol, fields: seq<Option<Expr>>)

  /** The ports a packet is sent on and the headers it is sent with. */
  datatype Outcome = Outcome(ports: seq<Expr>, headers: seq<Pattern>)

  /** Statements of a specification. An update of a state object is an assignment to it. */
  datatype Stmt =
    | Assign(x: string, e: Expr)
    | PopHeader(obj: string, protocol: Protocol, onMismatch: Outcome)
    | Bind(obj: string, fields: seq<string>, e: Expr)
    | If(test: Expr, body: seq<Stmt>, orelse: seq<Stmt>)
    | Assert(e: Expr)
    | Return(outcome: Outcome)
    | Pass

  /** Statements of the translation, which has no early exit. A switch over the received headers names how many of
      them enclosing switches have taken off. */
  datatype Code =
    | Declare(x: string, e: Expr)
    | Set(x: string, e: Expr)
    | Branch(test: Expr, yes: seq<Code>, no: seq<Code>)
    | Check(e: Expr)
    | CheckSent(outcome: Outcome)
    | AssumeFalse
    | SwitchHeader(depth: nat, obj: string, protocol: Protocol, onMismatch: Outcome, inner: seq<Code>)
    | SwitchObject(obj: string, fields: seq<string>, e: Expr, inner: seq<Code>)

  function FieldsOf(protocol: Protocol): (fields: seq<string>) {
    match protocol
    case Ether => ["saddr", "daddr", "type"]
    case Ipv4 => ["vihl", "tos", "len", "pid", "foff", "ttl", "npid", "cksum", "saddr", "daddr"]
    case TcpUdp => ["src_port", "dst_port"]
  }

  function NamesOf(obj: string, fields: seq<string>): (names: set<Name>) {
    set i | 0 <= i < |fields| :: FieldOf(obj, fields[i])
  }

  function ExprNames(e: Expr): (names: set<Name>) {
    match e
    case Num(_) => {}
    case Ref(x) => {x}
    case Call(_, args) => set i, x | 0 <= i < |args| && x in ExprNames(args[i]) :: x
  }

  function PatternNames(p: Pattern): (names: set<Name>) {
    set j, x | 0 <= j < |p.fields| && p.fields[j].Some? && x in ExprNames(p.fields[j].value) :: x
  }

  function OutcomeNames(o: Outcome): (names: set<Name>) {
    (set i, x | 0 <= i < |o.ports| && x in ExprNames(o.ports[i]) :: x)
    + (set i, x | 0 <= i < |o.headers| && x in PatternNames(o.headers[i]) :: x)
  }

  // ----- Values

  type Store = map<Name, Value>

  /** The meaning of operators and calls. */
  type Interp = (string, seq<Value>) -> Value

  ghost function Eval(meaning: Interp, e: Expr, s: Store): (v: Value)
    requires ExprNames(e) <= s.Keys
    decreases e
  {
    match e
    case Num(n) => Int(n)
    case Ref(x) => s[x]
    case Call(head, args) =>
      meaning(head, seq(|args|, i requires 0 <= i < |args|
        && ExprNames(args[i]) <= s.Keys => Eval(meaning, args[i], s)))
  }
}
