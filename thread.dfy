/**
 * Threads of the analysed program and the operations they perform. The two classes refer
 * to each other (an operation registers itself with its thread), so they share a module.
 */
module Threads {
  import opened Exceptions
  import opened CAst
  import opened Text

  /**
   * The name of a thread given the argument list of its pthread_create call: the
   * variable under the first argument's expression (`&t1` gives "t1"), or "t0" for the
   * main thread, which has no argument list.
   */
  function ThreadName(exprList: Option<seq<Node>>): string
    requires ThreadArgsNamed(exprList)
  {
    if exprList.None? then "t0" else ExprOf(exprList.value[0]).value.ident
  }

  /** The source reads exprs[0].expr.name and fails on a list without one. */
  predicate ThreadArgsNamed(exprList: Option<seq<Node>>)
  {
    exprList.Some? ==>
      |exprList.value| >= 1 && ExprOf(exprList.value[0]).Some? && ExprOf(exprList.value[0]).value.ID?
  }

  class Thread {
    const name: string
    const args: Option<seq<Node>>
    /** The time unit the thread runs in, by number. */
    var timeUnit: nat
    var operations: seq<Operation>
    /** How deeply the thread's creation is nested; 0 unless given. */
    const depth: nat

    constructor(exprList: Option<seq<Node>>, timeUnit: nat, depth: nat)
      requires ThreadArgsNamed(exprList)
      ensures name == ThreadName(exprList) && args == exprList
      ensures this.timeUnit == timeUnit && this.depth == depth && operations == []
    {
      name := ThreadName(exprList);
      args := exprList;
      this.timeUnit := timeUnit;
      this.depth := depth;
      operations := [];
    }

    /**
     * Every operation of the thread belongs to it and is numbered by its position,
     * from 1, so the numbers run 1, 2, 3, ... without gaps.
     */
    ghost predicate Numbered()
      reads this, set i | 0 <= i < |operations| :: operations[i]
    {
      forall i :: 0 <= i < |operations| ==> operations[i].thread == this && operations[i].index == i + 1
    }

    /** add_operation. */
    method AddOperation(op: Operation)
      modifies this
      ensures operations == old(operations) + [op]
      ensures timeUnit == old(timeUnit)
    {
      operations := operations + [op];
    }

    /** num_of_operations. */
    function NumOfOperations(): (n: nat)
      reads this
      ensures n == |operations|
    {
      |operations|
    }

    /** The time_unit setter; the getter is the field. */
    method SetTimeUnit(u: nat)
      modifies this
      ensures timeUnit == u && operations == old(operations)
    {
      timeUnit := u;
    }

    /** __eq__: threads are equal when their names are. */
    predicate Equals(other: Thread)
    {
      name == other.name
    }
  }

  class Operation {
    const node: Node
    const thread: Thread
    /** The operation's number within its thread. */
    const index: nat
    /** The called function for a call, "" for anything else. */
    const name: string
    const isLastAction: bool

    /**
     * Operation(node, thread): the operation appends itself to the thread's operations
     * and takes the thread's new operation count as its number. A call names the called
     * function (only calls through a plain identifier are modelled); a return statement
     * is the thread's last action.
     */
    constructor(node: Node, thread: Thread)
      requires node.FuncCall? ==> node.callee.ID?
      modifies thread
      ensures this.node == node && this.thread == thread
      ensures thread.operations == old(thread.operations) + [this]
      ensures index == |thread.operations|
      ensures name == (if node.FuncCall? then node.callee.ident else "")
      ensures isLastAction <==> node.Return?
      ensures thread.timeUnit == old(thread.timeUnit)
      ensures old(thread.Numbered()) ==> thread.Numbered()
    {
      this.node := node;
      this.thread := thread;
      index := |thread.operations| + 1;
      name := if node.FuncCall? then node.callee.ident else "";
      isLastAction := node.Return?;
      new;
      thread.AddOperation(this);
    }

    /** is_last_action. */
    predicate IsLastAction()
    {
      isLastAction
    }

    /** __lt__: operations compare by their numbers only. */
    predicate Less(other: Operation)
    {
      index < other.index
    }

    /** __repr__: "o", the thread's name without its first letter, ",", the number. */
    function Repr(): string
    {
      "o" + (if |thread.name| >= 1 then thread.name[1..] else "") + "," + DecimalString(index)
    }
  }

  /** In a numbered thread, the order of operations is the order they were added in. */
  lemma LessIsPosition(t: Thread, i: nat, j: nat)
    requires t.Numbered() && i < |t.operations| && j < |t.operations|
    ensures t.operations[i].Less(t.operations[j]) <==> i < j
  {
  }

  /** In a numbered thread, distinct operations print differently. */
  lemma ReprIsUnique(t: Thread, i: nat, j: nat)
    requires t.Numbered() && i < |t.operations| && j < |t.operations| && i != j
    ensures t.operations[i].Repr() != t.operations[j].Repr()
  {
    var a := t.operations[i];
    var b := t.operations[j];
    var prefix := "o" + (if |t.name| >= 1 then t.name[1..] else "") + ",";
    assert a.Repr() == prefix + DecimalString(a.index);
    assert b.Repr() == prefix + DecimalString(b.index);
    assert a.Repr()[|prefix|..] == DecimalString(a.index);
    assert b.Repr()[|prefix|..] == DecimalString(b.index);
    DecimalInjective(a.index, b.index);
  }
}
