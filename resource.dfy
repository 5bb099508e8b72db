/** A shared resource of the model: a variable known under a set of alias names. */
module Resources {
  import opened CAst
  import opened Mascm
  import opened Text

  class Resource {
    /** The declaration or expression the resource was found at. */
    const node: Node
    /** The resource's position in the model, from 1; it prints as r<num>. */
    const num: nat
    /** The names and aliases the resource is known under. */
    var names: set<string>

    /** Resource(node, num, *args): the names are the extra arguments. */
    constructor(node: Node, num: nat, args: seq<string>)
      ensures this.node == node && this.num == num
      ensures forall x :: x in names <==> x in args
    {
      this.node := node;
      this.num := num;
      names := set x | x in args;
    }

    /** add_name: afterwards the name is known, and nothing else changes. */
    method AddName(name: string)
      modifies this
      ensures names == old(names) + {name}
      ensures HasName(name)
      ensures old(HasName(name)) ==> names == old(names)
    {
      names := names + {name};
    }

    /** has_name, and equally `name in resource`. */
    predicate HasName(name: string)
      reads this
    {
      name in names
    }

    /** get_node. */
    function GetNode(): Node
    {
      node
    }

    /** __eq__: only the name sets are compared. */
    predicate Equals(other: Resource)
      reads this, other
    {
      other.names == names
    }

    /** __repr__: "r" followed by the number. */
    function Repr(): (s: string)
      ensures |s| >= 2 && s[0] == 'r'
    {
      "r" + DecimalString(num)
    }

    /** The resource as the detectors see it. */
    function Value(): (r: Res)
      reads this
      ensures r.num == num && r.names == names
    {
      Res(num, names)
    }
  }

  /**
   * Two resources print alike exactly when their numbers are equal, which is what a
   * comparison of printed edges such as "(o1,2, r1)" relies on.
   */
  lemma ReprIffSameNumber(a: Resource, b: Resource)
    ensures a.Repr() == b.Repr() <==> a.num == b.num
  {
    DecimalInjective(a.num, b.num);
    if a.Repr() == b.Repr() {
      assert a.Repr()[1..] == DecimalString(a.num);
      assert b.Repr()[1..] == DecimalString(b.num);
    }
  }

  /** Resource equality is the detectors' SameResource, whatever the nodes and numbers. */
  lemma EqualsIsSameResource(a: Resource, b: Resource)
    ensures a.Equals(b) <==> SameResource(a.Value(), b.Value())
  {
  }
}
