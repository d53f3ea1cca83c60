/** The calls built for `CASE x WHEN` on the heap are the parse result of the searched CASE. */
module SimpleCase {
  import opened Expressions
  import Trees
  import Heap
  import Switch
  import Cases

  type Tree = Trees.Tree

  /** The name under which an operator stands in a parse result; IS is `=` by then. */
  function NameOf(op: Op): string {
    match op
    case Mul => "mul"
    case Div => "div"
    case Mod => "mod"
    case Add => "add"
    case Sub => "sub"
    case BinaryAnd => "binary_and"
    case BinaryOr => "binary_or"
    case Lt => "lt"
    case Lte => "lte"
    case Gt => "gt"
    case Gte => "gte"
    case Eq | Is => "eq"
    case Neq | IsNot => "neq"
    case Like => "like"
    case NotLike => "not_like"
    case ILike => "ilike"
    case NotILike => "not_ilike"
    case RLike => "rlike"
    case NotRLike => "not_rlike"
    case And => "and"
    case Or => "or"
  }

  /** The parse result an expression stands for. A searched CASE has its branches in order and then its ELSE. */
  function Raw(e: Expr): Tree
    decreases e, 0
  {
    match e
    case Null => Trees.TSentinel
    case Name(id) => Trees.TText(id)
    case Call(fn, args) => Trees.TCall(fn, Trees.TList(RawAll(args)), map[])
    case Case(whens, els) => Trees.TCall("case",
      Trees.TList(RawWhens(whens) + (if els.Some? then [Raw(els.value)] else [])), map[])
    case Infix(op, operands) => Trees.TCall(NameOf(op), Trees.TList(RawAll(operands)), map[])
    case Missing(arg) => Trees.TCall("missing", Raw(arg), map[])
    case Exists(arg) => Trees.TCall("exists", Raw(arg), map[])
  }

  function RawAll(es: seq<Expr>): (r: seq<Tree>)
    ensures |r| == |es| && forall i :: 0 <= i < |es| ==> r[i] == Raw(es[i])
    decreases es
  {
    if es == [] then [] else [Raw(es[0])] + RawAll(es[1..])
  }

  function RawWhens(whens: seq<When>): (r: seq<Tree>)
    ensures |r| == |whens| && forall i :: 0 <= i < |whens| ==> r[i] == RawWhen(whens[i])
    decreases whens
  {
    if whens == [] then [] else [RawWhen(whens[0])] + RawWhens(whens[1..])
  }

  function RawWhen(w: When): Tree
    decreases w, 0
  {
    Trees.TCall("when", Trees.TList([Raw(w.cond)]), map["then" := Raw(w.result)])
  }

  /** The branches of a simple CASE as parsed: what follows WHEN is the one argument. */
  function Parts(whens: seq<When>): (r: seq<Switch.Branch>)
    ensures |r| == |whens|
  {
    seq(|whens|, i requires 0 <= i < |whens| =>
      Switch.Branch([Raw(whens[i].cond)], map["then" := Raw(whens[i].result)]))
  }

  function ElsePart(els: Option<Expr>): seq<Tree> {
    if els.Some? then [Raw(els.value)] else []
  }

  /** The tree of the calls is the parse result of the desugared CASE, so what is proved of that holds of them. */
  lemma SwitchIsDesugared(operand: Expr, whens: seq<When>, els: Option<Expr>)
    ensures Switch.SwitchTree(Raw(operand), Parts(whens), ElsePart(els)) == Raw(Cases.Desugar(operand, whens, els))
  {
    hide Raw;
    var trees, cases := Switch.WhenTrees(Raw(operand), Parts(whens)), Cases.Equated(operand, whens);
    forall i | 0 <= i < |whens| ensures trees[i] == RawWhens(cases)[i] {
      BranchIsWhen(operand, whens[i]);
    }
    assert trees == RawWhens(cases);
    CaseInOrder(cases, els);
  }

  lemma CaseInOrder(whens: seq<When>, els: Option<Expr>)
    ensures Raw(Case(whens, els)) == Trees.TCall("case", Trees.TList(RawWhens(whens) + ElsePart(els)), map[])
  {
  }

  lemma BranchIsWhen(operand: Expr, w: When)
    ensures Switch.WhenTree(Raw(operand), Switch.Branch([Raw(w.cond)], map["then" := Raw(w.result)]))
      == RawWhen(When(Infix(Eq, [operand, w.cond]), w.result))
  {
    assert RawAll([operand, w.cond]) == [Raw(operand)] + [Raw(w.cond)];
    assert Raw(Infix(Eq, [operand, w.cond])) == Trees.TCall("eq", Trees.TList([Raw(operand)] + [Raw(w.cond)]), map[]);
  }

  /** And so the value built on the heap unfolds to it. */
  lemma CallMeansDesugared(
    heap: seq<Heap.Obj>, own: map<Heap.Addr, Heap.Owner>, call: Heap.Val,
    operand: Expr, whens: seq<When>, els: Option<Expr>)
    requires Switch.Means(heap, own, call, Switch.SwitchTree(Raw(operand), Parts(whens), ElsePart(els)))
    ensures Switch.Means(heap, own, call, Raw(Cases.Desugar(operand, whens, els)))
  {
    SwitchIsDesugared(operand, whens, els);
  }
}
