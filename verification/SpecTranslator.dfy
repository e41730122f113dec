/** The translation of specifications, whose returns end them, into nested blocks without early exit. */
module SpecTranslator {
  import opened SpecLanguage

  /** A return among the statements of a block, not looking into nested ones. */
  predicate HasReturn(block: seq<Stmt>) {
    exists i :: 0 <= i < |block| && block[i].Return?
  }

  /** What follows such a conditional becomes its else-branch. */
  predicate TakesRest(c: Stmt) {
    c.If? && c.orelse == [] && HasReturn(c.body)
  }

  function Translated(spec: seq<Stmt>, vars: set<string>, depth: nat): (code: seq<Code>)
    decreases spec
  {
    if spec == [] then []
    else
      var rest := spec[1..];
      match spec[0]
      case Assign(x, e) => [if x in vars then Set(x, e) else Declare(x, e)] + Translated(rest, vars + {x}, depth)
      case PopHeader(obj, protocol, onMismatch) =>
        [SwitchHeader(depth, obj, protocol, onMismatch, Translated(rest, vars, depth + 1))]
      case Bind(obj, fields, e) => [SwitchObject(obj, fields, e, Translated(rest, vars, depth))]
      case If(test, body, orelse) =>
        if TakesRest(spec[0]) then [Branch(test, Translated(body, vars, depth), Translated(rest, vars, depth))]
        else [Branch(test, Translated(body, vars, depth), Translated(orelse, vars, depth))]
             + Translated(rest, vars, depth)
      case Assert(e) => [Check(e)] + Translated(rest, vars, depth)
      case Return(o) => [CheckSent(o)] + Translated(rest, vars, depth)
      case Pass => [AssumeFalse] + Translated(rest, vars, depth)
  }

  /** Looks for a return among the statements of a block; statements nested in them are not looked at. */
  method EndsWithReturn(block: seq<Stmt>) returns (found: bool)
    ensures found <==> HasReturn(block)
  {
    for i := 0 to |block|
      invariant forall j :: 0 <= j < i ==> !block[j].Return?
    {
      if block[i].Return? {
        return true;
      }
    }
    return false;
  }

  /** The translator keeps track of how many headers the enclosing blocks have taken off. */
  class Translator {
    var headerStack: nat

    constructor ()
      ensures headerStack == 0
    {
      headerStack := 0;
    }

    /** Translates a block, and leaves the header stack as it was. */
    method Translate(block: seq<Stmt>, declared: set<string>) returns (code: seq<Code>)
      modifies this
      ensures headerStack == old(headerStack)
      ensures code == Translated(block, declared, headerStack)
      decreases block, 1
    {
      code := [];
      var n, vars, stop := 0, declared, false;
      assert block[0..] == block;
      ghost var todo := Translated(block, declared, headerStack);
      while n < |block| && !stop
        invariant headerStack == old(headerStack) && n <= |block|
        invariant stop || todo == Translated(block[n..], vars, headerStack)
        invariant code + (if stop then [] else todo) == Translated(block, declared, headerStack)
      {
        var piece;
        assert n == 0 ==> block[n..] == block;
        piece, stop := TranslateFirst(block[n..], vars);
        vars := Declares(block[n], vars);
        todo := if stop then [] else Translated(block[n..][1..], vars, headerStack);
        Appended(code, piece, todo);
        code := code + [piece];
        assert block[n..][1..] == block[n + 1..];
        n := n + 1;
      }
    }

    /** Translates the first statement of a block; stops if that has taken in what follows. */
    method TranslateFirst(block: seq<Stmt>, vars: set<string>) returns (piece: Code, stop: bool)
      requires block != []
      modifies this
      ensures headerStack == old(headerStack)
      ensures Translated(block, vars, headerStack)
           == [piece] + if stop then [] else Translated(block[1..], Declares(block[0], vars), headerStack)
      decreases block, 0
    {
      stop := false;
      match block[0] {
        case Assign(x, e) =>
          piece := if x in vars then Set(x, e) else Declare(x, e);
        case PopHeader(obj, protocol, onMismatch) =>
          var previous := headerStack;
          headerStack := headerStack + 1;
          var inner := Translate(block[1..], vars);
          headerStack := previous;
          piece, stop := SwitchHeader(previous, obj, protocol, onMismatch, inner), true;
        case Bind(obj, fields, e) =>
          var inner := Translate(block[1..], vars);
          piece, stop := SwitchObject(obj, fields, e, inner), true;
        case If(test, body, orelse) =>
          var yes := Translate(body, vars);
          if orelse != [] {
            var no := Translate(orelse, vars);
            piece := Branch(test, yes, no);
          } else {
            var leaves := EndsWithReturn(body);
            if leaves {
              var no := Translate(block[1..], vars);
              piece, stop := Branch(test, yes, no), true;
            } else {
              piece := Branch(test, yes, []);
            }
          }
        case Assert(e) =>
          piece := Check(e);
        case Return(o) =>
          piece := CheckSent(o);
        case Pass =>
          piece := AssumeFalse;
      }
    }
  }

  function Declares(stmt: Stmt, vars: set<string>): (vars': set<string>) {
    if stmt.Assign? then vars + {stmt.x} else vars
  }

  lemma {:induction false} Appended(done: seq<Code>, x: Code, tail: seq<Code>)
    ensures (done + [x]) + tail == done + ([x] + tail)
  {
  }
}
