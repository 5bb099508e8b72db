/**
 * Name and type extraction over syntax-tree nodes: which variable an expression
 * refers to, and what type a declaration or expression has.
 */
module MascmHelper {
  import opened Exceptions
  import opened CAst

  // ---------------------------------------------------------------------------
  // extract_resource_name

  /** The expression classes extract_resource_name follows through an `expr` attribute. */
  predicate NameCarrier(e: Node)
  {
    e.ArrayRef? || e.ID? || e.UnaryOp?
  }

  /** Every identifier and declared name anywhere in the tree. */
  ghost function Identifiers(node: Node): set<string>
  {
    match node
    case ID(n) => {n}
    case Decl(n, t) => (if n.Some? then {n.value} else {}) + Identifiers(t)
    case ArrayRef(a, s) => Identifiers(a) + Identifiers(s)
    case Assignment(l, r) => Identifiers(l) + Identifiers(r)
    case UnaryOp(_, e) => Identifiers(e)
    case Cast(t, e) => Identifiers(t) + Identifiers(e)
    case Return(e) => if e.Some? then Identifiers(e.value) else {}
    case Typename(_, t) => Identifiers(t)
    case StructRef(b, f) => Identifiers(b) + Identifiers(f)
    case PtrDecl(t) => Identifiers(t)
    case TypeDecl(_, t) => Identifiers(t)
    case ArrayDecl(t) => Identifiers(t)
    case FuncCall(c, args) => Identifiers(c) + set i, x | 0 <= i < |args| && x in Identifiers(args[i]) :: x
    case _ => {}
  }

  /** What extract_resource_name does with a node whose `expr` is e (the node itself is no Constant or StructRef). */
  function NameThroughExpr(e: Node): (r: Result<string>)
    ensures r.Err? ==> r.error == AttributeError
    ensures r.Ok? && r.value != "" ==> r.value in Identifiers(e)
    decreases e, 1
  {
    if NameCarrier(e) then ExtractResourceName(e)
    else if e.Typename? then Ok("")
    else Err(AttributeError)
  }

  /**
   * extract_resource_name: identifiers and named declarations give their name; array
   * references, assignments, StructRefs and expressions over an array reference,
   * identifier or unary operation are followed to the part that names the variable; a
   * Constant or an expression over a type name gives "". Any other node raises
   * AttributeError, and so always fails. A non-empty result names an identifier of the tree.
   */
  function ExtractResourceName(node: Node): (r: Result<string>)
    ensures r.Err? ==> r.error == AttributeError
    ensures r.Ok? && r.value != "" ==> r.value in Identifiers(node)
    decreases node, 0
  {
    match node
    case ID(n) => Ok(n)
    case Decl(n, _) => if n.Some? then Ok(n.value) else Err(AttributeError)
    case ArrayRef(a, _) => ExtractResourceName(a)
    case Assignment(l, _) => ExtractResourceName(l)
    case UnaryOp(_, e) => NameThroughExpr(e)
    case Cast(_, e) => NameThroughExpr(e)
    case Return(e) => if e.Some? then NameThroughExpr(e.value) else Err(AttributeError)
    case Constant(_, _) => Ok("")
    case StructRef(b, _) => ExtractResourceName(b)
    case _ => Err(AttributeError)
  }

  /** `ops` applied to `base` as nested unary operations, the first outermost. */
  function Wrapped(ops: seq<string>, base: Node): Node
  {
    if ops == [] then base else UnaryOp(ops[0], Wrapped(ops[1..], base))
  }

  /** Dereferences, address-of and increments around a variable keep its name: &x, *p, x++, **pp. */
  lemma {:induction false} WrappedKeepsName(ops: seq<string>, name: string)
    ensures ExtractResourceName(Wrapped(ops, ID(name))) == Ok(name)
  {
    if ops != [] {
      WrappedKeepsName(ops[1..], name);
    }
  }

  /** The same around an array element: a[i]++, &a[i], *a[i]. */
  lemma {:induction false} WrappedArrayKeepsName(ops: seq<string>, arr: Node, subscript: Node)
    ensures ExtractResourceName(Wrapped(ops, ArrayRef(arr, subscript))) == ExtractResourceName(arr)
  {
    if ops != [] {
      WrappedArrayKeepsName(ops[1..], arr, subscript);
    }
  }

  /** An assignment to a member of a struct names the struct variable: s.count = 1 gives "s". */
  lemma MemberAssignment()
    ensures ExtractResourceName(Assignment(StructRef(ID("s"), ID("count")), Constant("int", "1"))) == Ok("s")
  {
  }

  /** A function call is a node extract_resource_name cannot handle. */
  lemma CallIsRejected(callee: Node, args: seq<Node>)
    ensures ExtractResourceName(FuncCall(callee, args)) == Err(AttributeError)
  {
  }

  // ---------------------------------------------------------------------------
  // extract_resource_type

  /** ' '.join(names). */
  function JoinWords(names: seq<string>): string
  {
    if names == [] then ""
    else if |names| == 1 then names[0]
    else names[0] + " " + JoinWords(names[1..])
  }

  /** The text f"{name}" for a struct tag, which may be None. */
  function TagText(tag: Option<string>): string
  {
    if tag.Some? then tag.value else "None"
  }

  /**
   * The node's printed form inside "unknown type <...>". pycparser's own multi-line
   * representation is not reproduced; only its being non-empty matters below.
   */
  function Describe(node: Node): (r: string)
    ensures |r| > 0
  {
    match node
    case ID(n) => "ID(name='" + n + "')"
    case UnaryOp(op, _) => "UnaryOp(op='" + op + "')"
    case _ => "Node"
  }

  /** extract_type: the type text of a declaration, type or expression node. */
  function ExtractType(node: Node): string
  {
    match node
    case Constant(_, _) => "constant"
    case StructRef(_, _) => "struct"
    case Struct(tag) => "struct<" + TagText(tag) + ">"
    case ArrayRef(_, _) => "array"
    case Decl(_, t) => ExtractType(t)
    case PtrDecl(t) => ExtractType(t)
    case TypeDecl(_, t) => ExtractType(t)
    case IdentifierType(names) => JoinWords(names)
    case ID(_) => "unknown type <" + Describe(node) + ">"
    case UnaryOp(_, _) => "unknown type <" + Describe(node) + ">"
    case ArrayDecl(t) => ExtractType(t)
    case Cast(t, _) => ExtractType(t)
    case Typename(_, t) => ExtractType(t)
    case _ => ""
  }

  /** The nodes extract_type looks through: declarators, casts and type names. */
  predicate TypeWrapper(node: Node)
  {
    node.Decl? || node.PtrDecl? || node.TypeDecl? || node.ArrayDecl? || node.Cast? || node.Typename?
  }

  /** The node extract_type finally classifies, reached through `type` and `to_type`. */
  function TypeBase(node: Node): (r: Node)
    ensures !TypeWrapper(r)
  {
    match node
    case Decl(_, t) => TypeBase(t)
    case PtrDecl(t) => TypeBase(t)
    case TypeDecl(_, t) => TypeBase(t)
    case ArrayDecl(t) => TypeBase(t)
    case Cast(t, _) => TypeBase(t)
    case Typename(_, t) => TypeBase(t)
    case _ => node
  }

  /** extract_resource_type: the type text and whether it is exactly "struct". */
  function ExtractResourceType(node: Node): (r: (string, bool))
    ensures r.0 == ExtractType(node)
    ensures r.1 <==> r.0 == "struct"
  {
    var t := ExtractType(node);
    (t, t == "struct")
  }

  /** The type of a node is the type of the node its declarators and casts lead to. */
  lemma {:induction false} TypeOfBase(node: Node)
    ensures ExtractType(node) == ExtractType(TypeBase(node))
  {
    match node
    case Decl(_, t) => TypeOfBase(t);
    case PtrDecl(t) => TypeOfBase(t);
    case TypeDecl(_, t) => TypeOfBase(t);
    case ArrayDecl(t) => TypeOfBase(t);
    case Cast(t, _) => TypeOfBase(t);
    case Typename(_, t) => TypeOfBase(t);
    case _ =>
  }

  /**
   * A resource is flagged as a struct exactly when its declarators and casts lead to a
   * member access (StructRef), or to a plain type spelled "struct". A struct definition
   * or a variable of struct type gives "struct<tag>" and is not flagged.
   */
  lemma IsStructIff(node: Node)
    ensures ExtractResourceType(node).1 <==>
            TypeBase(node).StructRef? || (TypeBase(node).IdentifierType? && JoinWords(TypeBase(node).names) == "struct")
  {
    TypeOfBase(node);
    var b := TypeBase(node);
    if b.Struct? {
      assert |ExtractType(b)| >= |"struct<>"|;
    } else if b.ID? || b.UnaryOp? {
      assert |ExtractType(b)| > |"unknown type <>"|;
    }
  }

  /** `struct point p;` has type "struct<point>" and is not flagged; `unsigned int n;` is "unsigned int". */
  lemma DeclarationTypes()
    ensures ExtractResourceType(Decl(Some("p"), TypeDecl(Some("p"), Struct(Some("point"))))) == ("struct<point>", false)
    ensures ExtractResourceType(Decl(Some("n"), TypeDecl(Some("n"), IdentifierType(["unsigned", "int"])))) == ("unsigned int", false)
  {
    assert ExtractType(Struct(Some("point"))) == "struct<" + "point" + ">";
    assert "struct<" + "point" + ">" == "struct<point>";
    assert JoinWords(["unsigned", "int"]) == "unsigned" + " " + JoinWords(["int"]) by {
      assert ["unsigned", "int"][1..] == ["int"];
    }
    assert "unsigned" + " " + "int" == "unsigned int";
  }
}
