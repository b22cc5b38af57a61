/**
 Contract call trees of one transaction (crates/xdr-parser/src/invocation.rs).

 Three walkers work with explicit stacks: the flattener of authorization trees,
 the walker of the host's `fn_call` / `fn_return` trace, and the two-pass JSON
 builder. Each is proved equal to a structural recursion over the tree.
 */
module CallTree {
  import opened Bytes
  import opened Options

  /** An `ScAddress`; its StrKey rendering is injective, so the address stands for it. */
  datatype Address = Contract(hash: seq<Byte>) | Account(key: string)

  /** A rendered JSON value; only `null` is told apart. */
  datatype Value = Null | Json(text: string)

  /** What `decode_authorized_function` makes of a node's function. */
  datatype Target = Target(contractId: Option<Address>, functionName: Option<string>, args: Value)

  /** A `SorobanAuthorizedInvocation`. */
  datatype Node = Node(target: Target, subs: seq<Node>)

  /** The columns every row of one transaction shares. */
  datatype TxContext = TxContext(transactionHash: string, ledgerSequence: nat, createdAt: int, successful: bool)

  /** An `ExtractedInvocation`. */
  datatype Row = Row(ctx: TxContext, contractId: Option<Address>, caller: Option<Address>,
                     functionName: Option<string>, functionArgs: Value, returnValue: Value,
                     index: nat, depth: nat)

  function Size(nodes: seq<Node>): nat
  {
    if nodes == [] then 0 else 1 + Size(nodes[0].subs) + Size(nodes[1..])
  }

  function RowOf(ctx: TxContext, t: Target, caller: Option<Address>, ret: Value, depth: nat, index: nat): Row
  {
    Row(ctx, t.contractId, caller, t.functionName, t.args, ret, index, depth)
  }

  /** The pre-order rows of a forest whose roots have this caller, return value and depth. */
  function Rows(ctx: TxContext, nodes: seq<Node>, caller: Option<Address>, ret: Value, depth: nat, index: nat): seq<Row>
  {
    if nodes == [] then []
    else
      var n := nodes[0];
      [RowOf(ctx, n.target, caller, ret, depth, index)]
      + Rows(ctx, n.subs, n.target.contractId, Null, depth + 1, index + 1)
      + Rows(ctx, nodes[1..], caller, ret, depth, index + 1 + Size(n.subs))
  }

  // ---------- What the pre-order rows mean ----------

  /** Row `i` is the innermost call still open when row `j` is entered. */
  ghost predicate IsParent(rows: seq<Row>, i: int, j: int)
  {
    && 0 <= i < j < |rows|
    && rows[i].depth + 1 == rows[j].depth
    && forall k :: i < k < j ==> rows[k].depth >= rows[j].depth
  }

  /** Row `j` is a root, or is called by its parent's contract and carries no return value. */
  ghost predicate CallerOk(rows: seq<Row>, j: int, caller: Option<Address>, ret: Value, depth: nat)
    requires 0 <= j < |rows|
  {
    if rows[j].depth == depth then rows[j].caller == caller && rows[j].returnValue == ret
    else
      && rows[j].depth > depth && rows[j].returnValue == Null
      && exists i :: IsParent(rows, i, j) && rows[j].caller == rows[i].contractId
  }

  lemma {:induction false} RowsIndexed(ctx: TxContext, nodes: seq<Node>, caller: Option<Address>, ret: Value, depth: nat, index: nat)
    ensures var rows := Rows(ctx, nodes, caller, ret, depth, index);
            && |rows| == Size(nodes)
            && forall j :: 0 <= j < |rows| ==> rows[j].index == index + j && rows[j].depth >= depth
    decreases nodes
  {
    if nodes != [] {
      var n := nodes[0];
      RowsIndexed(ctx, n.subs, n.target.contractId, Null, depth + 1, index + 1);
      RowsIndexed(ctx, nodes[1..], caller, ret, depth, index + 1 + Size(n.subs));
    }
  }

  /** Every caller is the contract of the innermost call still open. */
  ghost predicate Nested(rows: seq<Row>, caller: Option<Address>, ret: Value, depth: nat)
  {
    forall j :: 0 <= j < |rows| ==> CallerOk(rows, j, caller, ret, depth)
  }

  /** Depth is nesting depth and every caller is the enclosing call's contract. */
  lemma {:induction false} RowsNested(ctx: TxContext, nodes: seq<Node>, caller: Option<Address>, ret: Value, depth: nat, index: nat)
    ensures Nested(Rows(ctx, nodes, caller, ret, depth, index), caller, ret, depth)
    decreases nodes
  {
    if nodes != [] {
      var n := nodes[0];
      var head := RowOf(ctx, n.target, caller, ret, depth, index);
      var inner := Rows(ctx, n.subs, n.target.contractId, Null, depth + 1, index + 1);
      var after := Rows(ctx, nodes[1..], caller, ret, depth, index + 1 + Size(n.subs));
      RowsNested(ctx, n.subs, n.target.contractId, Null, depth + 1, index + 1);
      RowsNested(ctx, nodes[1..], caller, ret, depth, index + 1 + Size(n.subs));
      RowsIndexed(ctx, n.subs, n.target.contractId, Null, depth + 1, index + 1);
      NestedUnder(head, inner, caller, ret, depth);
      NestedConcat([head] + inner, after, caller, ret, depth);
    }
  }

  lemma NestedUnder(head: Row, inner: seq<Row>, caller: Option<Address>, ret: Value, depth: nat)
    requires head.depth == depth && head.caller == caller && head.returnValue == ret
    requires forall k :: 0 <= k < |inner| ==> inner[k].depth >= depth + 1
    requires Nested(inner, head.contractId, Null, depth + 1)
    ensures Nested([head] + inner, caller, ret, depth)
  {
    var rows := [head] + inner;
    forall j | 0 <= j < |rows| ensures CallerOk(rows, j, caller, ret, depth) {
      if j > 0 {
        var r := inner[j - 1];
        assert rows[j] == r && CallerOk(inner, j - 1, head.contractId, Null, depth + 1);
        if r.depth == depth + 1 {
          assert IsParent(rows, 0, j);
        } else {
          var i :| IsParent(inner, i, j - 1) && r.caller == inner[i].contractId;
          assert IsParent(rows, i + 1, j);
        }
      }
    }
  }

  lemma NestedConcat(a: seq<Row>, b: seq<Row>, caller: Option<Address>, ret: Value, depth: nat)
    requires Nested(a, caller, ret, depth) && Nested(b, caller, ret, depth)
    ensures Nested(a + b, caller, ret, depth)
  {
    var rows := a + b;
    forall j | 0 <= j < |rows| ensures CallerOk(rows, j, caller, ret, depth) {
      if j < |a| {
        assert CallerOk(a, j, caller, ret, depth);
        if rows[j].depth != depth {
          var i :| IsParent(a, i, j) && a[j].caller == a[i].contractId;
          assert IsParent(rows, i, j);
        }
      } else {
        assert CallerOk(b, j - |a|, caller, ret, depth);
        if rows[j].depth != depth {
          var i :| IsParent(b, i, j - |a|) && b[j - |a|].caller == b[i].contractId;
          assert IsParent(rows, i + |a|, j);
        }
      }
    }
  }

  /** The calls of a forest in pre-order. */
  function PreOrder(nodes: seq<Node>): seq<Target>
  {
    if nodes == [] then [] else [nodes[0].target] + PreOrder(nodes[0].subs) + PreOrder(nodes[1..])
  }

  /** The row says what the call is, and of which transaction. */
  ghost predicate Shows(r: Row, ctx: TxContext, t: Target)
  {
    r.ctx == ctx && r.contractId == t.contractId && r.functionName == t.functionName && r.functionArgs == t.args
  }

  ghost predicate ShowAll(rows: seq<Row>, ctx: TxContext, ts: seq<Target>)
  {
    |rows| == |ts| && forall j :: 0 <= j < |rows| ==> Shows(rows[j], ctx, ts[j])
  }

  /** Each row names the contract, function and arguments of its own call. */
  lemma {:induction false} RowsShowCalls(ctx: TxContext, nodes: seq<Node>, caller: Option<Address>, ret: Value, depth: nat, index: nat)
    ensures ShowAll(Rows(ctx, nodes, caller, ret, depth, index), ctx, PreOrder(nodes))
    decreases nodes
  {
    if nodes != [] {
      var n := nodes[0];
      RowsShowCalls(ctx, n.subs, n.target.contractId, Null, depth + 1, index + 1);
      RowsShowCalls(ctx, nodes[1..], caller, ret, depth, index + 1 + Size(n.subs));
      var inner := Rows(ctx, n.subs, n.target.contractId, Null, depth + 1, index + 1);
      var after := Rows(ctx, nodes[1..], caller, ret, depth, index + 1 + Size(n.subs));
      ShowConcat([RowOf(ctx, n.target, caller, ret, depth, index)], inner, ctx, [n.target], PreOrder(n.subs));
      ShowConcat([RowOf(ctx, n.target, caller, ret, depth, index)] + inner, after, ctx, [n.target] + PreOrder(n.subs), PreOrder(nodes[1..]));
    }
  }

  lemma ShowConcat(a: seq<Row>, b: seq<Row>, ctx: TxContext, s: seq<Target>, t: seq<Target>)
    requires ShowAll(a, ctx, s) && ShowAll(b, ctx, t)
    ensures ShowAll(a + b, ctx, s + t)
  {
  }

  // ---------- flatten_invocation: an explicit stack ----------

  /** The rows emitted so far and the next index. */
  datatype Acc = Acc(out: seq<Row>, index: nat)

  /** Emit one node's own row. */
  function EmitRow(ctx: TxContext, acc: Acc, t: Target, caller: Option<Address>, ret: Value, depth: nat): Acc
  {
    Acc(acc.out + [RowOf(ctx, t, caller, ret, depth, acc.index)], acc.index + 1)
  }

  /** Emit a forest after `acc`: `Rows`, with the output passed along. */
  ghost function Emit(ctx: TxContext, acc: Acc, nodes: seq<Node>, caller: Option<Address>, ret: Value, depth: nat): Acc
    decreases nodes
  {
    if nodes == [] then acc
    else
      var n := nodes[0];
      var inner := Emit(ctx, EmitRow(ctx, acc, n.target, caller, ret, depth), n.subs, n.target.contractId, Null, depth + 1);
      Emit(ctx, inner, nodes[1..], caller, ret, depth)
  }

  lemma {:induction false} EmitIsRows(ctx: TxContext, acc: Acc, nodes: seq<Node>, caller: Option<Address>, ret: Value, depth: nat)
    ensures Emit(ctx, acc, nodes, caller, ret, depth)
         == Acc(acc.out + Rows(ctx, nodes, caller, ret, depth, acc.index), acc.index + Size(nodes))
    decreases nodes
  {
    if nodes != [] {
      var n := nodes[0];
      var a1 := EmitRow(ctx, acc, n.target, caller, ret, depth);
      var a2 := Emit(ctx, a1, n.subs, n.target.contractId, Null, depth + 1);
      EmitIsRows(ctx, a1, n.subs, n.target.contractId, Null, depth + 1);
      EmitIsRows(ctx, a2, nodes[1..], caller, ret, depth);
    }
  }

  /** Emitting a forest is emitting its first tree, then the others. */
  lemma EmitFirst(ctx: TxContext, acc: Acc, nodes: seq<Node>, caller: Option<Address>, ret: Value, depth: nat)
    requires nodes != []
    ensures Emit(ctx, acc, nodes, caller, ret, depth)
         == Emit(ctx, Emit(ctx, acc, [nodes[0]], caller, ret, depth), nodes[1..], caller, ret, depth)
    ensures Emit(ctx, acc, [nodes[0]], caller, ret, depth)
         == Emit(ctx, EmitRow(ctx, acc, nodes[0].target, caller, ret, depth), nodes[0].subs, nodes[0].target.contractId, Null, depth + 1)
    ensures Size(nodes) == Size([nodes[0]]) + Size(nodes[1..]) && Size([nodes[0]]) == 1 + Size(nodes[0].subs)
  {
    assert [nodes[0]][1..] == [];
  }

  datatype Frame = Frame(node: Node, depth: nat, caller: Option<Address>, ret: Value)

  /** Emit what the frames on `stack` (top last) still owe. */
  ghost function Drain(ctx: TxContext, stack: seq<Frame>, acc: Acc): Acc
  {
    if stack == [] then acc
    else
      var f := stack[|stack| - 1];
      Drain(ctx, stack[..|stack| - 1], Emit(ctx, acc, [f.node], f.caller, f.ret, f.depth))
  }

  ghost function StackSize(stack: seq<Frame>): nat
  {
    if stack == [] then 0 else Size([stack[|stack| - 1].node]) + StackSize(stack[..|stack| - 1])
  }

  /** The frames of `subs` as pushed: last child first, so that the first child is on top. */
  ghost function Pushed(subs: seq<Node>, depth: nat, caller: Option<Address>): seq<Frame>
  {
    if subs == [] then [] else Pushed(subs[1..], depth, caller) + [Frame(subs[0], depth, caller, Null)]
  }

  lemma {:induction false} DrainPushed(ctx: TxContext, base: seq<Frame>, subs: seq<Node>, depth: nat, caller: Option<Address>, acc: Acc)
    ensures Drain(ctx, base + Pushed(subs, depth, caller), acc) == Drain(ctx, base, Emit(ctx, acc, subs, caller, Null, depth))
    ensures StackSize(base + Pushed(subs, depth, caller)) == Size(subs) + StackSize(base)
    decreases |subs|
  {
    var stack := base + Pushed(subs, depth, caller);
    if subs == [] {
      assert stack == base;
    } else {
      var n := subs[0];
      assert stack[..|stack| - 1] == base + Pushed(subs[1..], depth, caller);
      assert stack[|stack| - 1] == Frame(n, depth, caller, Null);
      EmitFirst(ctx, acc, subs, caller, Null, depth);
      DrainPushed(ctx, base, subs[1..], depth, caller, Emit(ctx, acc, [n], caller, Null, depth));
    }
  }

  method FlattenInvocation(ctx: TxContext, index: nat, root: Node, rootCaller: Option<Address>, rootReturn: Value, out: seq<Row>)
    returns (index': nat, out': seq<Row>)
    ensures out' == out + Rows(ctx, [root], rootCaller, rootReturn, 0, index)
    ensures index' == index + Size([root])
  {
    index', out' := index, out;
    var stack := [Frame(root, 0, rootCaller, rootReturn)];
    ghost var goal := Emit(ctx, Acc(out, index), [root], rootCaller, rootReturn, 0);
    EmitIsRows(ctx, Acc(out, index), [root], rootCaller, rootReturn, 0);
    while stack != []
      invariant Drain(ctx, stack, Acc(out', index')) == goal
      decreases StackSize(stack)
    {
      var frame, base := stack[|stack| - 1], stack[..|stack| - 1];
      var t, subs := frame.node.target, frame.node.subs;
      ghost var before := Acc(out', index');
      stack := base;
      out' := out' + [RowOf(ctx, t, frame.caller, frame.ret, frame.depth, index')];
      index' := index' + 1;
      for i := |subs| downto 0
        invariant stack == base + Pushed(subs[i..], frame.depth + 1, t.contractId)
      {
        assert subs[i..][0] == subs[i] && subs[i..][1..] == subs[i + 1..];
        stack := stack + [Frame(subs[i], frame.depth + 1, t.contractId, Null)];
      }
      assert subs[0..] == subs;
      EmitFirst(ctx, before, [frame.node], frame.caller, frame.ret, frame.depth);
      DrainPushed(ctx, base, subs, frame.depth + 1, t.contractId, Acc(out', index'));
    }
  }

  // ---------- flatten_auth_tree: every auth entry of every operation ----------

  datatype Operation = InvokeHostFunction(auth: seq<Node>, source: Option<Address>) | OtherOperation

  function CallerOf(op: Operation, txSource: Address): Address
    requires op.InvokeHostFunction?
  {
    match op.source case Some(a) => a case None => txSource
  }

  function AuthRows(ctx: TxContext, ops: seq<Operation>, txSource: Address, ret: Value, index: nat): seq<Row>
  {
    if ops == [] then []
    else if ops[0].OtherOperation? then AuthRows(ctx, ops[1..], txSource, ret, index)
    else
      Rows(ctx, ops[0].auth, Some(CallerOf(ops[0], txSource)), ret, 0, index)
      + AuthRows(ctx, ops[1..], txSource, ret, index + Size(ops[0].auth))
  }

  /** The roots of an operation are called by its own source, or else by the transaction's. */
  lemma RootsCalledBySource(ctx: TxContext, root: Node, source: Address, txSource: Address, ret: Value, index: nat)
    ensures AuthRows(ctx, [InvokeHostFunction([root], Some(source))], txSource, ret, index) == Rows(ctx, [root], Some(source), ret, 0, index)
    ensures AuthRows(ctx, [InvokeHostFunction([root], None)], txSource, ret, index) == Rows(ctx, [root], Some(txSource), ret, 0, index)
    ensures RootCaller([InvokeHostFunction([root], Some(source))], txSource) == source
    ensures RootCaller([InvokeHostFunction([root], None)], txSource) == txSource
  {
    var own, tx := InvokeHostFunction([root], Some(source)), InvokeHostFunction([root], None);
    assert [own][1..] == [] && [tx][1..] == [];
  }

  ghost function EmitOps(ctx: TxContext, acc: Acc, ops: seq<Operation>, txSource: Address, ret: Value): Acc
    decreases |ops|
  {
    if ops == [] then acc
    else if ops[0].OtherOperation? then EmitOps(ctx, acc, ops[1..], txSource, ret)
    else EmitOps(ctx, Emit(ctx, acc, ops[0].auth, Some(CallerOf(ops[0], txSource)), ret, 0), ops[1..], txSource, ret)
  }

  lemma {:induction false} EmitOpsIsAuthRows(ctx: TxContext, acc: Acc, ops: seq<Operation>, txSource: Address, ret: Value)
    ensures EmitOps(ctx, acc, ops, txSource, ret).out == acc.out + AuthRows(ctx, ops, txSource, ret, acc.index)
    decreases |ops|
  {
    if ops != [] {
      if ops[0].OtherOperation? {
        EmitOpsIsAuthRows(ctx, acc, ops[1..], txSource, ret);
      } else {
        EmitIsRows(ctx, acc, ops[0].auth, Some(CallerOf(ops[0], txSource)), ret, 0);
        EmitOpsIsAuthRows(ctx, Emit(ctx, acc, ops[0].auth, Some(CallerOf(ops[0], txSource)), ret, 0), ops[1..], txSource, ret);
      }
    }
  }

  method FlattenAuthTree(ctx: TxContext, ops: seq<Operation>, txSource: Address, rootReturn: Value) returns (out: seq<Row>)
    ensures out == AuthRows(ctx, ops, txSource, rootReturn, 0)
  {
    out := [];
    var index: nat := 0;
    ghost var goal := EmitOps(ctx, Acc([], 0), ops, txSource, rootReturn);
    EmitOpsIsAuthRows(ctx, Acc([], 0), ops, txSource, rootReturn);
    assert ops[0..] == ops;
    for i := 0 to |ops|
      invariant EmitOps(ctx, Acc(out, index), ops[i..], txSource, rootReturn) == goal
    {
      assert ops[i..][0] == ops[i] && ops[i..][1..] == ops[i + 1..];
      if ops[i].InvokeHostFunction? {
        var caller, auth := CallerOf(ops[i], txSource), ops[i].auth;
        ghost var after := Emit(ctx, Acc(out, index), auth, Some(caller), rootReturn, 0);
        assert auth[0..] == auth;
        for k := 0 to |auth|
          invariant Emit(ctx, Acc(out, index), auth[k..], Some(caller), rootReturn, 0) == after
        {
          assert auth[k..][0] == auth[k] && auth[k..][1..] == auth[k + 1..];
          EmitFirst(ctx, Acc(out, index), auth[k..], Some(caller), rootReturn, 0);
          EmitIsRows(ctx, Acc(out, index), [auth[k]], Some(caller), rootReturn, 0);
          index, out := FlattenInvocation(ctx, index, auth[k], Some(caller), rootReturn, out);
        }
        assert auth[|auth|..] == [];
      }
    }
    assert ops[|ops|..] == [];
  }

  ghost predicate Numbered(rows: seq<Row>, from: nat)
  {
    forall j :: 0 <= j < |rows| ==> rows[j].index == from + j
  }

  /** The whole fallback list is numbered 0, 1, 2, … across operations and auth entries. */
  lemma {:induction false} AuthRowsNumbered(ctx: TxContext, ops: seq<Operation>, txSource: Address, ret: Value, index: nat)
    ensures Numbered(AuthRows(ctx, ops, txSource, ret, index), index)
    decreases |ops|
  {
    if ops == [] {
    } else if ops[0].OtherOperation? {
      AuthRowsNumbered(ctx, ops[1..], txSource, ret, index);
    } else {
      RowsIndexed(ctx, ops[0].auth, Some(CallerOf(ops[0], txSource)), ret, 0, index);
      AuthRowsNumbered(ctx, ops[1..], txSource, ret, index + Size(ops[0].auth));
      NumberedConcat(Rows(ctx, ops[0].auth, Some(CallerOf(ops[0], txSource)), ret, 0, index),
                     AuthRows(ctx, ops[1..], txSource, ret, index + Size(ops[0].auth)), index);
    }
  }

  lemma NumberedConcat(a: seq<Row>, b: seq<Row>, from: nat)
    requires Numbered(a, from) && Numbered(b, from + |a|)
    ensures Numbered(a + b, from)
  {
    forall j | 0 <= j < |a + b| ensures (a + b)[j].index == from + j {
      if j >= |a| { assert b[j - |a|].index == from + |a| + (j - |a|); }
    }
  }

  // ---------- extract_invocations_from_diagnostics: the host's call trace ----------

  datatype Topic =
    | Symbol(text: string)
    | BadSymbol              // a symbol whose bytes are not UTF-8
    | Bytes(raw: seq<Byte>)
    | AddressTopic(address: Address)
    | OtherTopic

  datatype DiagEvent = DiagEvent(diagnosticType: bool, topics: seq<Topic>)

  /** `DiagKind`. */
  datatype Signal = FnCall(contract: Address) | FnReturn

  function DecodeCallTarget(topic: Topic): Option<Address>
  {
    match topic
    case Bytes(raw) => if |raw| == 32 then Some(Contract(raw)) else None
    case AddressTopic(Contract(hash)) => Some(Contract(hash))
    case _ => None
  }

  function ClassifyTopics(topics: seq<Topic>): Option<Signal>
  {
    if topics == [] then None
    else if topics[0] == Symbol("fn_call") then
      if |topics| < 2 then None
      else
        match DecodeCallTarget(topics[1])
        case Some(a) => Some(FnCall(a))
        case None => None
    else if topics[0] == Symbol("fn_return") then Some(FnReturn)
    else None
  }

  function SignalOf(e: DiagEvent): Option<Signal>
  {
    if e.diagnosticType then ClassifyTopics(e.topics) else None
  }

  /** The calls and returns of a trace; every other event is passed over. */
  function Signals(events: seq<DiagEvent>): seq<Signal>
  {
    if events == [] then []
    else (match SignalOf(events[0]) case Some(s) => [s] case None => []) + Signals(events[1..])
  }

  function CallRow(ctx: TxContext, contract: Address, caller: Address, depth: nat, index: nat): Row
  {
    RowOf(ctx, Target(Some(contract), None, Null), Some(caller), Null, depth, index)
  }

  /** The walk as a fold over signals: a call emits a row and opens a frame, a return closes one. */
  function Walk(ctx: TxContext, root: Address, signals: seq<Signal>, stack: seq<Address>, acc: Acc): Acc
  {
    if signals == [] then acc
    else match signals[0]
      case FnCall(c) =>
        var caller := if stack == [] then root else stack[|stack| - 1];
        Walk(ctx, root, signals[1..], stack + [c], Acc(acc.out + [CallRow(ctx, c, caller, |stack|, acc.index)], acc.index + 1))
      case FnReturn =>
        Walk(ctx, root, signals[1..], if stack == [] then [] else stack[..|stack| - 1], acc)
  }

  method WalkDiagnostics(ctx: TxContext, events: seq<DiagEvent>, root: Address) returns (out: seq<Row>)
    ensures out == Walk(ctx, root, Signals(events), [], Acc([], 0)).out
  {
    out := [];
    var stack: seq<Address> := [];
    var index: nat := 0;
    assert events[0..] == events;
    for i := 0 to |events|
      invariant Walk(ctx, root, Signals(events[i..]), stack, Acc(out, index)) == Walk(ctx, root, Signals(events), [], Acc([], 0))
    {
      assert events[i..][0] == events[i] && events[i..][1..] == events[i + 1..];
      ghost var later := Signals(events[i + 1..]);
      if !events[i].diagnosticType {
        assert Signals(events[i..]) == later;
        continue;
      }
      var kind := ClassifyTopics(events[i].topics);
      if kind == None {
        assert Signals(events[i..]) == later;
        continue;
      }
      assert Signals(events[i..]) == [kind.value] + later && ([kind.value] + later)[1..] == later;
      match kind.value
      case FnCall(c) =>
        var caller := if stack != [] then stack[|stack| - 1] else root;
        out := out + [CallRow(ctx, c, caller, |stack|, index)];
        index := index + 1;
        stack := stack + [c];
      case FnReturn =>
        if stack != [] { stack := stack[..|stack| - 1]; }
    }
    assert events[|events|..] == [];
  }

  /** Every node calls a contract, as every `fn_call` does. */
  predicate ContractCalls(nodes: seq<Node>)
  {
    nodes == []
    || (nodes[0].target.contractId.Some? && ContractCalls(nodes[0].subs) && ContractCalls(nodes[1..]))
  }

  /** A forest as the host traces it: a call, the calls inside it, its return. */
  function Brackets(nodes: seq<Node>): seq<Signal>
    requires ContractCalls(nodes)
  {
    if nodes == [] then []
    else
      [FnCall(nodes[0].target.contractId.value)] + Brackets(nodes[0].subs) + [FnReturn] + Brackets(nodes[1..])
  }

  /** A row as far as a trace shows it: no function name, arguments or return value. */
  function Traced(r: Row): Row
  {
    r.(functionName := None, functionArgs := Null, returnValue := Null)
  }

  function TracedRows(rows: seq<Row>): (t: seq<Row>)
    ensures |t| == |rows| && forall i :: 0 <= i < |rows| ==> t[i] == Traced(rows[i])
  {
    seq(|rows|, i requires 0 <= i < |rows| => Traced(rows[i]))
  }

  ghost function CallerOn(stack: seq<Address>, root: Address): Address
  {
    if stack == [] then root else stack[|stack| - 1]
  }

  /** Emit a forest's rows as a trace shows them. */
  ghost function TraceEmit(ctx: TxContext, acc: Acc, nodes: seq<Node>, caller: Address, depth: nat): Acc
    requires ContractCalls(nodes)
    decreases nodes
  {
    if nodes == [] then acc
    else
      var c := nodes[0].target.contractId.value;
      var head := Acc(acc.out + [CallRow(ctx, c, caller, depth, acc.index)], acc.index + 1);
      TraceEmit(ctx, TraceEmit(ctx, head, nodes[0].subs, c, depth + 1), nodes[1..], caller, depth)
  }

  lemma {:induction false} TraceEmitIsRows(ctx: TxContext, acc: Acc, nodes: seq<Node>, caller: Address, ret: Value, depth: nat)
    requires ContractCalls(nodes)
    ensures TraceEmit(ctx, acc, nodes, caller, depth)
         == Acc(acc.out + TracedRows(Rows(ctx, nodes, Some(caller), ret, depth, acc.index)), acc.index + Size(nodes))
    decreases nodes
  {
    if nodes == [] {
      assert acc.out + TracedRows([]) == acc.out;
    } else {
      var n := nodes[0];
      var c := n.target.contractId.value;
      var row := CallRow(ctx, c, caller, depth, acc.index);
      var a1 := Acc(acc.out + [row], acc.index + 1);
      TraceEmitIsRows(ctx, a1, n.subs, c, Null, depth + 1);
      var inner := Rows(ctx, n.subs, Some(c), Null, depth + 1, acc.index + 1);
      var a2 := Acc(a1.out + TracedRows(inner), a1.index + Size(n.subs));
      TraceEmitIsRows(ctx, a2, nodes[1..], caller, ret, depth);
      var after := Rows(ctx, nodes[1..], Some(caller), ret, depth, a2.index);
      TracedSplit(RowOf(ctx, n.target, Some(caller), ret, depth, acc.index), inner, after, acc.out);
    }
  }

  lemma TracedSplit(head: Row, inner: seq<Row>, after: seq<Row>, out: seq<Row>)
    ensures out + [Traced(head)] + TracedRows(inner) + TracedRows(after) == out + TracedRows([head] + inner + after)
  {
    var whole := [head] + inner + after;
    assert TracedRows(whole) == [Traced(head)] + TracedRows(inner) + TracedRows(after);
  }

  /** Walking a traced forest emits its rows and leaves the stack as it was. */
  lemma {:induction false} WalkBrackets(ctx: TxContext, root: Address, nodes: seq<Node>, rest: seq<Signal>, stack: seq<Address>, acc: Acc)
    requires ContractCalls(nodes)
    ensures Walk(ctx, root, Brackets(nodes) + rest, stack, acc)
         == Walk(ctx, root, rest, stack, TraceEmit(ctx, acc, nodes, CallerOn(stack, root), |stack|))
    decreases nodes
  {
    if nodes == [] {
      assert Brackets(nodes) + rest == rest;
    } else {
      var n := nodes[0];
      var c := n.target.contractId.value;
      var next := Brackets(nodes[1..]) + rest;
      BracketsSplit(nodes, rest);
      var head := Acc(acc.out + [CallRow(ctx, c, CallerOn(stack, root), |stack|, acc.index)], acc.index + 1);
      var inner := TraceEmit(ctx, head, n.subs, c, |stack| + 1);
      WalkBrackets(ctx, root, n.subs, [FnReturn] + next, stack + [c], head);
      assert (stack + [c])[..|stack|] == stack && ([FnReturn] + next)[1..] == next;
      WalkBrackets(ctx, root, nodes[1..], rest, stack, inner);
    }
  }

  lemma BracketsSplit(nodes: seq<Node>, rest: seq<Signal>)
    requires ContractCalls(nodes) && nodes != []
    ensures var all := Brackets(nodes) + rest;
            && all != [] && all[0] == FnCall(nodes[0].target.contractId.value)
            && all[1..] == Brackets(nodes[0].subs) + ([FnReturn] + (Brackets(nodes[1..]) + rest))
  {
    Regroup(FnCall(nodes[0].target.contractId.value), Brackets(nodes[0].subs), [FnReturn], Brackets(nodes[1..]), rest);
  }

  lemma Regroup<T>(x: T, a: seq<T>, b: seq<T>, c: seq<T>, d: seq<T>)
    ensures ([x] + a + b + c + d)[0] == x && ([x] + a + b + c + d)[1..] == a + (b + (c + d))
  {
  }

  function CallCount(signals: seq<Signal>): nat
  {
    if signals == [] then 0 else (if signals[0].FnCall? then 1 else 0) + CallCount(signals[1..])
  }

  /** The walk only ever adds rows, one for each call. */
  lemma {:induction false} WalkExtends(ctx: TxContext, root: Address, signals: seq<Signal>, stack: seq<Address>, acc: Acc)
    ensures var out := Walk(ctx, root, signals, stack, acc).out;
            |out| == |acc.out| + CallCount(signals) && acc.out <= out
    decreases |signals|
  {
    if signals != [] {
      match signals[0]
      case FnCall(c) =>
        WalkExtends(ctx, root, signals[1..], stack + [c],
                    Acc(acc.out + [CallRow(ctx, c, CallerOn(stack, root), |stack|, acc.index)], acc.index + 1));
      case FnReturn =>
        WalkExtends(ctx, root, signals[1..], if stack == [] then [] else stack[..|stack| - 1], acc);
    }
  }

  /** A trace cut short emits a prefix of the rows. */
  lemma {:induction false} WalkCut(ctx: TxContext, root: Address, signals: seq<Signal>, k: nat, stack: seq<Address>, acc: Acc)
    requires k <= |signals|
    ensures Walk(ctx, root, signals[..k], stack, acc).out <= Walk(ctx, root, signals, stack, acc).out
    decreases |signals|
  {
    if k == 0 {
      WalkExtends(ctx, root, signals, stack, acc);
    } else {
      assert signals[..k][0] == signals[0] && signals[..k][1..] == signals[1..][..k - 1];
      match signals[0]
      case FnCall(c) =>
        WalkCut(ctx, root, signals[1..], k - 1, stack + [c],
                Acc(acc.out + [CallRow(ctx, c, CallerOn(stack, root), |stack|, acc.index)], acc.index + 1));
      case FnReturn =>
        WalkCut(ctx, root, signals[1..], k - 1, if stack == [] then [] else stack[..|stack| - 1], acc);
    }
  }

  /** The trace of a forest, whatever else is interleaved, gives exactly the rows the
      authorization flattener gives on that forest, without the per-function detail. */
  lemma TraceAgreesWithFlatten(ctx: TxContext, events: seq<DiagEvent>, root: Address, forest: seq<Node>, ret: Value)
    requires ContractCalls(forest) && Signals(events) == Brackets(forest)
    ensures Walk(ctx, root, Signals(events), [], Acc([], 0)).out == TracedRows(Rows(ctx, forest, Some(root), ret, 0, 0))
  {
    ForestWalked(ctx, root, forest, ret);
  }

  lemma ForestWalked(ctx: TxContext, root: Address, forest: seq<Node>, ret: Value)
    requires ContractCalls(forest)
    ensures Walk(ctx, root, Brackets(forest), [], Acc([], 0)).out == TracedRows(Rows(ctx, forest, Some(root), ret, 0, 0))
  {
    WalkBrackets(ctx, root, forest, [], [], Acc([], 0));
    TraceEmitIsRows(ctx, Acc([], 0), forest, root, ret, 0);
    assert Brackets(forest) + [] == Brackets(forest);
  }

  /** A trap ends the trace early: the rows are those of the calls entered, a prefix of the whole. */
  lemma TrapGivesPrefix(ctx: TxContext, events: seq<DiagEvent>, root: Address, forest: seq<Node>, ret: Value, k: nat)
    requires ContractCalls(forest) && k <= |Brackets(forest)| && Signals(events) == Brackets(forest)[..k]
    ensures var n := CallCount(Signals(events));
            && n <= Size(forest) == |TracedRows(Rows(ctx, forest, Some(root), ret, 0, 0))|
            && Walk(ctx, root, Signals(events), [], Acc([], 0)).out == TracedRows(Rows(ctx, forest, Some(root), ret, 0, 0))[..n]
  {
    ForestWalked(ctx, root, forest, ret);
    WalkCut(ctx, root, Brackets(forest), k, [], Acc([], 0));
    WalkExtends(ctx, root, Signals(events), [], Acc([], 0));
    RowsIndexed(ctx, forest, Some(root), ret, 0, 0);
  }

  /** An event adds its own signal wherever it stands; one that is no call or return adds nothing. */
  lemma EventInserted(before: seq<DiagEvent>, e: DiagEvent, after: seq<DiagEvent>)
    ensures Signals(before + [e] + after) == Signals(before) + Signals([e]) + Signals(after)
    ensures SignalOf(e) == None ==> Signals(before + [e] + after) == Signals(before + after)
  {
    assert Signals(before + [e] + after) == Signals(before) + Signals([e]) + Signals(after) by {
      SignalsConcat(before + [e], after);
      SignalsConcat(before, [e]);
    }
    if SignalOf(e) == None {
      SignalsConcat(before, after);
      assert Signals([e]) == [] by { assert [e][1..] == []; }
      assert Signals(before) + [] == Signals(before);
    }
  }

  /** Both encodings of the called contract are read; a `fn_call` aimed at anything else is ignored. */
  lemma CallEncodings(hash: seq<Byte>, key: string)
    requires |hash| == 32
    ensures Signals([DiagEvent(true, [Symbol("fn_call"), Bytes(hash)])]) == [FnCall(Contract(hash))]
    ensures Signals([DiagEvent(true, [Symbol("fn_call"), AddressTopic(Contract(hash))])]) == [FnCall(Contract(hash))]
    ensures Signals([DiagEvent(true, [Symbol("fn_call"), AddressTopic(Account(key))])]) == []
    ensures Signals([DiagEvent(true, [Symbol("fn_call"), Bytes(hash[1..])])]) == []
    ensures Signals([DiagEvent(true, [Symbol("fn_call")])]) == []
    ensures Signals([DiagEvent(true, [Symbol("fn_return")])]) == [FnReturn]
    ensures Signals([DiagEvent(true, [Symbol("log"), Bytes(hash)])]) == Signals([DiagEvent(true, [BadSymbol, Bytes(hash)])]) == []
    ensures Signals([DiagEvent(false, [Symbol("fn_call"), Bytes(hash)])]) == Signals([DiagEvent(false, [Symbol("fn_return")])]) == []
  {
  }

  lemma {:induction false} SignalsConcat(a: seq<DiagEvent>, b: seq<DiagEvent>)
    ensures Signals(a + b) == Signals(a) + Signals(b)
    decreases |a|
  {
    if a == [] {
      assert a + b == b;
    } else {
      assert (a + b)[0] == a[0] && (a + b)[1..] == a[1..] + b;
      SignalsConcat(a[1..], b);
    }
  }

  // ---------- invocation_to_json: two passes over one visit list ----------

  /** The JSON object of one call. */
  datatype CallJson = CallJson(target: Target, returnValue: Value, successful: bool, children: seq<CallJson>)

  datatype Visit = Visit(target: Target, returnValue: Value, childCount: nat)

  /** The JSON of a forest with children left to right; only the roots carry `ret`. */
  function JsonForest(nodes: seq<Node>, ret: Value, ok: bool): (json: seq<CallJson>)
    ensures |json| == |nodes|
    decreases nodes
  {
    if nodes == [] then []
    else [CallJson(nodes[0].target, ret, ok, JsonForest(nodes[0].subs, Null, ok))] + JsonForest(nodes[1..], ret, ok)
  }

  /** The forest with siblings reversed at every node. */
  function Mirror(nodes: seq<Node>): (m: seq<Node>)
    ensures |m| == |nodes|
    decreases nodes
  {
    if nodes == [] then [] else Mirror(nodes[1..]) + [Node(nodes[0].target, Mirror(nodes[0].subs))]
  }

  function Reversed<T>(s: seq<T>): (r: seq<T>)
    ensures |r| == |s|
  {
    if s == [] then [] else Reversed(s[1..]) + [s[0]]
  }

  /** Append the pre-order visits of a forest to `acc`. */
  ghost function VisitAll(acc: seq<Visit>, nodes: seq<Node>, ret: Value): seq<Visit>
    decreases nodes
  {
    if nodes == [] then acc
    else
      var n := nodes[0];
      VisitAll(VisitAll(acc + [Visit(n.target, ret, |n.subs|)], n.subs, Null), nodes[1..], ret)
  }

  ghost function VisitStack(acc: seq<Visit>, stack: seq<(Node, Value)>): seq<Visit>
    decreases |stack|
  {
    if stack == [] then acc
    else
      var (node, ret) := stack[|stack| - 1];
      VisitStack(VisitAll(acc, [node], ret), stack[..|stack| - 1])
  }

  ghost function NodesSize(stack: seq<(Node, Value)>): nat
  {
    if stack == [] then 0 else Size([stack[|stack| - 1].0]) + NodesSize(stack[..|stack| - 1])
  }

  ghost function PushedNodes(subs: seq<Node>): seq<(Node, Value)>
  {
    if subs == [] then [] else PushedNodes(subs[1..]) + [(subs[0], Null)]
  }

  lemma VisitFirst(acc: seq<Visit>, nodes: seq<Node>, ret: Value)
    requires nodes != []
    ensures VisitAll(acc, nodes, ret) == VisitAll(VisitAll(acc, [nodes[0]], ret), nodes[1..], ret)
    ensures VisitAll(acc, [nodes[0]], ret)
         == VisitAll(acc + [Visit(nodes[0].target, ret, |nodes[0].subs|)], nodes[0].subs, Null)
    ensures Size(nodes) == Size([nodes[0]]) + Size(nodes[1..]) && Size([nodes[0]]) == 1 + Size(nodes[0].subs)
  {
    assert [nodes[0]][1..] == [];
  }

  lemma {:induction false} VisitPushed(acc: seq<Visit>, base: seq<(Node, Value)>, subs: seq<Node>)
    ensures VisitStack(acc, base + PushedNodes(subs)) == VisitStack(VisitAll(acc, subs, Null), base)
    ensures NodesSize(base + PushedNodes(subs)) == Size(subs) + NodesSize(base)
    decreases |subs|
  {
    var stack := base + PushedNodes(subs);
    if subs == [] {
      assert stack == base;
    } else {
      assert stack[..|stack| - 1] == base + PushedNodes(subs[1..]);
      assert stack[|stack| - 1] == (subs[0], Null);
      VisitFirst(acc, subs, Null);
      VisitPushed(VisitAll(acc, [subs[0]], Null), base, subs[1..]);
    }
  }

  /** The second pass: visits from last to first, each taking its children off the result stack.
      `None` is an underflow of that stack; `forward` reverses what `split_off` returned. */
  ghost function BuildUp(visits: seq<Visit>, stack: seq<CallJson>, ok: bool, forward: bool): Option<seq<CallJson>>
    decreases |visits|
  {
    if visits == [] then Some(stack)
    else
      var v := visits[|visits| - 1];
      if |stack| < v.childCount then None
      else
        var cut := |stack| - v.childCount;
        var children := if forward then Reversed(stack[cut..]) else stack[cut..];
        BuildUp(visits[..|visits| - 1], stack[..cut] + [CallJson(v.target, v.returnValue, ok, children)], ok, forward)
  }

  /** One step of the second pass, on a stack whose top holds the visit's children. */
  lemma BuildStep(visits: seq<Visit>, v: Visit, under: seq<CallJson>, top: seq<CallJson>, ok: bool, forward: bool)
    requires |top| == v.childCount
    ensures BuildUp(visits + [v], under + top, ok, forward)
         == BuildUp(visits, under + [CallJson(v.target, v.returnValue, ok, if forward then Reversed(top) else top)], ok, forward)
  {
    assert (visits + [v])[..|visits|] == visits;
    var stack := under + top;
    assert stack[..|stack| - |top|] == under && stack[|stack| - |top|..] == top;
  }

  /** As written, a forest's visits leave the JSON of the mirrored forest on the stack. */
  lemma {:induction false} BuildsMirror(acc: seq<Visit>, nodes: seq<Node>, ret: Value, stack: seq<CallJson>, ok: bool)
    ensures BuildUp(VisitAll(acc, nodes, ret), stack, ok, false)
         == BuildUp(acc, stack + JsonForest(Mirror(nodes), ret, ok), ok, false)
    decreases nodes
  {
    hide BuildUp;
    if nodes == [] {
      assert stack + JsonForest(Mirror(nodes), ret, ok) == stack;
    } else {
      var n := nodes[0];
      var v := Visit(n.target, ret, |n.subs|);
      var right := JsonForest(Mirror(nodes[1..]), ret, ok);
      var inner := JsonForest(Mirror(n.subs), Null, ok);
      var mine := CallJson(n.target, ret, ok, inner);
      BuildsMirror(VisitAll(acc + [v], n.subs, Null), nodes[1..], ret, stack, ok);
      BuildsMirror(acc + [v], n.subs, Null, stack + right, ok);
      BuildStep(acc, v, stack + right, inner, ok, false);
      JsonForestSnoc(Mirror(nodes[1..]), Node(n.target, Mirror(n.subs)), ret, ok);
      assert (stack + right) + [mine] == stack + (right + [mine]);
    }
  }

  lemma {:induction false} JsonForestSnoc(nodes: seq<Node>, n: Node, ret: Value, ok: bool)
    ensures JsonForest(nodes + [n], ret, ok)
         == JsonForest(nodes, ret, ok) + [CallJson(n.target, ret, ok, JsonForest(n.subs, Null, ok))]
    decreases |nodes|
  {
    if nodes != [] {
      assert (nodes + [n])[0] == nodes[0] && (nodes + [n])[1..] == nodes[1..] + [n];
      JsonForestSnoc(nodes[1..], n, ret, ok);
    }
  }

  lemma {:induction false} ReversedTwice<T>(s: seq<T>)
    ensures Reversed(Reversed(s)) == s
  {
    if s != [] {
      ReversedSnoc(Reversed(s[1..]), s[0]);
      ReversedTwice(s[1..]);
    }
  }

  lemma {:induction false} ReversedSnoc<T>(s: seq<T>, x: T)
    ensures Reversed(s + [x]) == [x] + Reversed(s)
  {
    if s != [] {
      assert (s + [x])[0] == s[0] && (s + [x])[1..] == s[1..] + [x];
      ReversedSnoc(s[1..], x);
    }
  }

  /** With the children reversed after `split_off`, the second pass builds the forest itself. */
  lemma {:induction false} BuildsForward(acc: seq<Visit>, nodes: seq<Node>, ret: Value, stack: seq<CallJson>, ok: bool)
    ensures BuildUp(VisitAll(acc, nodes, ret), stack, ok, true)
         == BuildUp(acc, stack + Reversed(JsonForest(nodes, ret, ok)), ok, true)
    decreases nodes
  {
    hide BuildUp, Mirror;
    if nodes == [] {
      assert stack + Reversed(JsonForest(nodes, ret, ok)) == stack;
    } else {
      var n := nodes[0];
      var v := Visit(n.target, ret, |n.subs|);
      var right := Reversed(JsonForest(nodes[1..], ret, ok));
      var inner := JsonForest(n.subs, Null, ok);
      var mine := CallJson(n.target, ret, ok, inner);
      BuildsForward(VisitAll(acc + [v], n.subs, Null), nodes[1..], ret, stack, ok);
      BuildsForward(acc + [v], n.subs, Null, stack + right, ok);
      BuildStep(acc, v, stack + right, Reversed(inner), ok, true);
      ReversedTwice(inner);
      assert JsonForest(nodes, ret, ok)[1..] == JsonForest(nodes[1..], ret, ok);
      assert (stack + right) + [mine] == stack + (right + [mine]);
    }
  }

  method InvocationToJson(root: Node, rootReturn: Value, successful: bool) returns (json: CallJson)
    ensures [json] == JsonForest(Mirror([root]), rootReturn, successful)
  {
    // Pass 1: visits in pre-order.
    var visits: seq<Visit> := [];
    var dfs := [(root, rootReturn)];
    ghost var goal := VisitAll([], [root], rootReturn);
    while dfs != []
      invariant VisitStack(visits, dfs) == goal
      decreases NodesSize(dfs)
    {
      var (node, ret) := dfs[|dfs| - 1];
      var base := dfs[..|dfs| - 1];
      VisitFirst(visits, [node], ret);
      dfs := base;
      visits := visits + [Visit(node.target, ret, |node.subs|)];
      var subs := node.subs;
      for i := |subs| downto 0
        invariant dfs == base + PushedNodes(subs[i..])
      {
        assert subs[i..][0] == subs[i] && subs[i..][1..] == subs[i + 1..];
        dfs := dfs + [(subs[i], Null)];
      }
      assert subs[0..] == subs;
      VisitPushed(visits, base, subs);
    }
    // Pass 2: children before parents.
    ghost var mirrored := JsonForest(Mirror([root]), rootReturn, successful);
    BuildsMirror([], [root], rootReturn, [], successful);
    assert [] + mirrored == mirrored;
    var results: seq<CallJson> := [];
    assert visits[..|visits|] == visits;
    for i := |visits| downto 0
      invariant BuildUp(visits[..i], results, successful, false) == Some(mirrored)
    {
      assert visits[..i + 1][..i] == visits[..i] && visits[..i + 1][i] == visits[i];
      var visit := visits[i];
      var cut := |results| - visit.childCount;
      var children := results[cut..];
      results := results[..cut] + [CallJson(visit.target, visit.returnValue, successful, children)];
    }
    json := results[|results| - 1];
  }

  /** Reversing the children as they are taken off the stack would give the order the source intends. */
  lemma ReversedChildrenGiveTreeOrder(root: Node, ret: Value, ok: bool)
    ensures BuildUp(VisitAll([], [root], ret), [], ok, true) == Some(JsonForest([root], ret, ok))
  {
    BuildsForward([], [root], ret, [], ok);
    var only := JsonForest([root], ret, ok);
    assert only == [only[0]] && [] + Reversed(only) == only by { assert only[1..] == []; }
  }

  lemma {:induction false} JsonForestInjective(a: seq<Node>, b: seq<Node>, ret: Value, ok: bool)
    requires JsonForest(a, ret, ok) == JsonForest(b, ret, ok)
    ensures a == b
    decreases a
  {
    if a != [] {
      var ja, jb := JsonForest(a, ret, ok), JsonForest(b, ret, ok);
      assert |b| == |a| && ja[0] == jb[0] && ja[1..] == jb[1..];
      assert ja[0].children == JsonForest(a[0].subs, Null, ok) && jb[0].children == JsonForest(b[0].subs, Null, ok);
      assert ja[1..] == JsonForest(a[1..], ret, ok) && jb[1..] == JsonForest(b[1..], ret, ok);
      JsonForestInjective(a[0].subs, b[0].subs, Null, ok);
      JsonForestInjective(a[1..], b[1..], ret, ok);
      assert a == [a[0]] + a[1..] && b == [b[0]] + b[1..];
    }
  }

  /** The JSON keeps the order of the auth tree exactly when the tree is its own mirror image. */
  lemma JsonInOrderIff(root: Node, ret: Value, ok: bool)
    ensures JsonForest(Mirror([root]), ret, ok) == JsonForest([root], ret, ok) <==> Mirror([root]) == [root]
  {
    if JsonForest(Mirror([root]), ret, ok) == JsonForest([root], ret, ok) {
      JsonForestInjective(Mirror([root]), [root], ret, ok);
    }
  }

  predicate Chain(nodes: seq<Node>)
  {
    |nodes| <= 1 && (nodes != [] ==> Chain(nodes[0].subs))
  }

  /** Trees without siblings come out right … */
  lemma {:induction false} ChainIsItsMirror(nodes: seq<Node>)
    requires Chain(nodes)
    ensures Mirror(nodes) == nodes
  {
    if nodes != [] {
      ChainIsItsMirror(nodes[0].subs);
      assert nodes[1..] == [];
    }
  }

  /** … and two different childless siblings come out swapped. */
  lemma SiblingsSwapped(a: Target, b: Target, t: Target, ret: Value, ok: bool)
    requires a != b
    ensures var root := Node(t, [Node(a, []), Node(b, [])]);
            && JsonForest(Mirror([root]), ret, ok)[0].children == [CallJson(b, Null, ok, []), CallJson(a, Null, ok, [])]
            && JsonForest([root], ret, ok)[0].children == [CallJson(a, Null, ok, []), CallJson(b, Null, ok, [])]
  {
    var subs := [Node(a, []), Node(b, [])];
    LeafPairJson(a, b, ok);
    LeafPairJson(b, a, ok);
    assert subs[1..] == [Node(b, [])] && subs[1..][1..] == [];
    assert Mirror(subs) == [Node(b, []), Node(a, [])];
    assert [Node(t, subs)][1..] == [] && Mirror([Node(t, subs)]) == [Node(t, Mirror(subs))];
  }

  lemma LeafPairJson(x: Target, y: Target, ok: bool)
    ensures JsonForest([Node(x, []), Node(y, [])], Null, ok) == [CallJson(x, Null, ok, []), CallJson(y, Null, ok, [])]
  {
    assert [Node(x, []), Node(y, [])][1..] == [Node(y, [])];
    assert JsonForest([Node(y, [])], Null, ok) == [CallJson(y, Null, ok, [])];
  }

  // ---------- extract_invocations: both paths together ----------

  /** `soroban_return_value` and the diagnostic events of a transaction's meta. */
  datatype Meta = Meta(returnValue: Option<Value>, diagnostics: seq<DiagEvent>)

  /** The auth entries' trees, operation by operation, each with siblings mirrored at every node. */
  function AuthTrees(ops: seq<Operation>, ret: Value, ok: bool): seq<CallJson>
  {
    if ops == [] then []
    else
      var last := ops[|ops| - 1];
      AuthTrees(ops[..|ops| - 1], ret, ok) + (if last.InvokeHostFunction? then TreesOf(last.auth, ret, ok) else [])
  }

  function TreesOf(auth: seq<Node>, ret: Value, ok: bool): seq<CallJson>
  {
    if auth == [] then [] else TreesOf(auth[..|auth| - 1], ret, ok) + JsonForest(Mirror([auth[|auth| - 1]]), ret, ok)
  }

  /** The source of the first contract call, or of the transaction. */
  function RootCaller(ops: seq<Operation>, txSource: Address): Address
  {
    if ops == [] then txSource
    else if ops[0].InvokeHostFunction? then CallerOf(ops[0], txSource)
    else RootCaller(ops[1..], txSource)
  }

  method FindRootCaller(ops: seq<Operation>, txSource: Address) returns (caller: Address)
    ensures caller == RootCaller(ops, txSource)
  {
    assert ops[0..] == ops;
    for i := 0 to |ops|
      invariant RootCaller(ops[i..], txSource) == RootCaller(ops, txSource)
    {
      assert ops[i..][0] == ops[i] && ops[i..][1..] == ops[i + 1..];
      if ops[i].InvokeHostFunction? { return CallerOf(ops[i], txSource); }
    }
    return txSource;
  }

  method OperationTrees(ops: seq<Operation>, ret: Value, ok: bool) returns (trees: seq<CallJson>)
    ensures trees == AuthTrees(ops, ret, ok)
  {
    hide JsonForest, Mirror;
    trees := [];
    for i := 0 to |ops|
      invariant trees == AuthTrees(ops[..i], ret, ok)
    {
      assert ops[..i + 1][..i] == ops[..i] && ops[..i + 1][i] == ops[i];
      if ops[i].InvokeHostFunction? {
        var auth := ops[i].auth;
        for k := 0 to |auth|
          invariant trees == AuthTrees(ops[..i], ret, ok) + TreesOf(auth[..k], ret, ok)
        {
          assert auth[..k + 1][..k] == auth[..k] && auth[..k + 1][k] == auth[k];
          var json := InvocationToJson(auth[k], ret, ok);
          trees := trees + [json];
        }
        assert auth[..|auth|] == auth;
      }
    }
    assert ops[..|ops|] == ops;
  }

  function ReturnOf(meta: Option<Meta>): Value
  {
    if meta.Some? && meta.value.returnValue.Some? then meta.value.returnValue.value else Null
  }

  /** The rows of the trace, if there is a meta. */
  function TraceRows(ctx: TxContext, ops: seq<Operation>, meta: Option<Meta>, txSource: Address): seq<Row>
  {
    if meta == None then [] else Traces(ctx, RootCaller(ops, txSource), meta.value.diagnostics)
  }

  function Traces(ctx: TxContext, root: Address, events: seq<DiagEvent>): seq<Row>
  {
    Walk(ctx, root, Signals(events), [], Acc([], 0)).out
  }

  /** Roots carry `v`, the calls inside them nothing. */
  ghost predicate RootsReturn(trees: seq<CallJson>, v: Value)
  {
    forall i :: 0 <= i < |trees| ==> trees[i].returnValue == v && NoneReturn(trees[i].children)
  }

  ghost predicate NoneReturn(json: seq<CallJson>)
    decreases json
  {
    forall i :: 0 <= i < |json| ==> json[i].returnValue == Null && NoneReturn(json[i].children)
  }

  ghost predicate RootRowsReturn(rows: seq<Row>, v: Value)
  {
    forall j :: 0 <= j < |rows| ==> rows[j].returnValue == if rows[j].depth == 0 then v else Null
  }

  lemma {:induction false} InnerReturnNothing(nodes: seq<Node>, ok: bool)
    ensures NoneReturn(JsonForest(nodes, Null, ok))
    decreases nodes
  {
    if nodes != [] {
      InnerReturnNothing(nodes[0].subs, ok);
      InnerReturnNothing(nodes[1..], ok);
      var json, rest := JsonForest(nodes, Null, ok), JsonForest(nodes[1..], Null, ok);
      forall i | 0 <= i < |json| ensures json[i].returnValue == Null && NoneReturn(json[i].children) {
        if i > 0 { assert json[i] == rest[i - 1]; }
      }
    }
  }

  lemma {:induction false} TreesRootsReturn(auth: seq<Node>, ret: Value, ok: bool)
    ensures RootsReturn(TreesOf(auth, ret, ok), ret)
    decreases |auth|
  {
    if auth != [] {
      var n := auth[|auth| - 1];
      TreesRootsReturn(auth[..|auth| - 1], ret, ok);
      assert [n][1..] == [] && Mirror([n]) == [Node(n.target, Mirror(n.subs))];
      InnerReturnNothing(Mirror(n.subs), ok);
    }
  }

  lemma {:induction false} TreeRootsReturn(ops: seq<Operation>, ret: Value, ok: bool)
    ensures RootsReturn(AuthTrees(ops, ret, ok), ret)
    decreases |ops|
  {
    if ops != [] {
      var last := ops[|ops| - 1];
      TreeRootsReturn(ops[..|ops| - 1], ret, ok);
      if last.InvokeHostFunction? { TreesRootsReturn(last.auth, ret, ok); }
    }
  }

  lemma RootRowsConcat(a: seq<Row>, b: seq<Row>, caller: Option<Address>, v: Value)
    requires Nested(a, caller, v, 0) && RootRowsReturn(b, v)
    ensures RootRowsReturn(a + b, v)
  {
    forall j | 0 <= j < |a + b| ensures (a + b)[j].returnValue == if (a + b)[j].depth == 0 then v else Null {
      if j < |a| { assert CallerOk(a, j, caller, v, 0); } else { assert (a + b)[j] == b[j - |a|]; }
    }
  }

  lemma {:induction false} AuthRootRowsReturn(ctx: TxContext, ops: seq<Operation>, txSource: Address, ret: Value, index: nat)
    ensures RootRowsReturn(AuthRows(ctx, ops, txSource, ret, index), ret)
    decreases |ops|
  {
    if ops == [] {
    } else if ops[0].OtherOperation? {
      AuthRootRowsReturn(ctx, ops[1..], txSource, ret, index);
    } else {
      var rows := Rows(ctx, ops[0].auth, Some(CallerOf(ops[0], txSource)), ret, 0, index);
      RowsNested(ctx, ops[0].auth, Some(CallerOf(ops[0], txSource)), ret, 0, index);
      AuthRootRowsReturn(ctx, ops[1..], txSource, ret, index + Size(ops[0].auth));
      RootRowsConcat(rows, AuthRows(ctx, ops[1..], txSource, ret, index + Size(ops[0].auth)), Some(CallerOf(ops[0], txSource)), ret);
    }
  }

  method ExtractInvocations(ctx: TxContext, ops: seq<Operation>, meta: Option<Meta>, txSource: Address)
    returns (invocations: seq<Row>, operationTree: Option<seq<CallJson>>)
    ensures operationTree == (var trees := AuthTrees(ops, ReturnOf(meta), ctx.successful); if trees == [] then None else Some(trees))
    ensures invocations == (var traced := TraceRows(ctx, ops, meta, txSource);
                            if traced == [] then AuthRows(ctx, ops, txSource, ReturnOf(meta), 0) else traced)
    // the transaction's return value, if its meta has one, is on every root and nowhere else
    ensures var v := if meta.Some? && meta.value.returnValue.Some? then meta.value.returnValue.value else Null;
            && (operationTree.Some? ==> RootsReturn(operationTree.value, v))
            && (meta == None || CallCount(Signals(meta.value.diagnostics)) == 0 ==> RootRowsReturn(invocations, v))
  {
    TreeRootsReturn(ops, ReturnOf(meta), ctx.successful);
    AuthRootRowsReturn(ctx, ops, txSource, ReturnOf(meta), 0);
    if meta.Some? { WalkExtends(ctx, RootCaller(ops, txSource), Signals(meta.value.diagnostics), [], Acc([], 0)); }
    var ret := ReturnOf(meta);
    var trees := OperationTrees(ops, ret, ctx.successful);
    operationTree := if trees == [] then None else Some(trees);
    var root := FindRootCaller(ops, txSource);
    var traced: seq<Row> := [];
    if meta.Some? { traced := WalkDiagnostics(ctx, meta.value.diagnostics, root); }
    if traced == [] {
      invocations := FlattenAuthTree(ctx, ops, txSource, ret);
    } else {
      invocations := traced;
    }
  }

  /** A transaction with one contract call whose auth trees are its whole execution gets the same callers,
      contracts, depths and indexes from either path. */
  lemma EitherPathAgrees(ctx: TxContext, ops: seq<Operation>, k: nat, meta: Meta, txSource: Address)
    requires k < |ops| && ops[k].InvokeHostFunction? && forall i :: 0 <= i < |ops| && i != k ==> ops[i].OtherOperation?
    requires ContractCalls(ops[k].auth) && Signals(meta.diagnostics) == Brackets(ops[k].auth)
    ensures TraceRows(ctx, ops, Some(meta), txSource) == TracedRows(AuthRows(ctx, ops, txSource, ReturnOf(Some(meta)), 0))
  {
    OneCall(ctx, ops, k, txSource, ReturnOf(Some(meta)), 0);
    TraceAgreesWithFlatten(ctx, meta.diagnostics, CallerOf(ops[k], txSource), ops[k].auth, ReturnOf(Some(meta)));
  }

  lemma {:induction false} OneCall(ctx: TxContext, ops: seq<Operation>, k: nat, txSource: Address, ret: Value, index: nat)
    requires k < |ops| && ops[k].InvokeHostFunction? && forall i :: 0 <= i < |ops| && i != k ==> ops[i].OtherOperation?
    ensures RootCaller(ops, txSource) == CallerOf(ops[k], txSource)
    ensures AuthRows(ctx, ops, txSource, ret, index) == Rows(ctx, ops[k].auth, Some(CallerOf(ops[k], txSource)), ret, 0, index)
    decreases k
  {
    if k == 0 {
      NoCalls(ctx, ops[1..], txSource, ret, index + Size(ops[0].auth));
    } else {
      OneCall(ctx, ops[1..], k - 1, txSource, ret, index);
    }
  }

  lemma {:induction false} NoCalls(ctx: TxContext, ops: seq<Operation>, txSource: Address, ret: Value, index: nat)
    requires forall i :: 0 <= i < |ops| ==> ops[i].OtherOperation?
    ensures AuthRows(ctx, ops, txSource, ret, index) == []
    decreases |ops|
  {
    if ops != [] { NoCalls(ctx, ops[1..], txSource, ret, index); }
  }
}
