/**
 * The pycparser syntax-tree nodes the model builder's helpers inspect, as one datatype.
 * Each constructor keeps the attributes those helpers read; every other node class is
 * `Other`, which has neither an `lvalue` nor an `expr` attribute.
 */
module CAst {
  import opened Exceptions

  datatype Node =
    | ID(ident: string)                                 // an identifier; its name is never None
    | Decl(declName: Option<string>, ty: Node)          // a declaration; abstract declarators have no name
    | ArrayRef(arrayName: Node, subscript: Node)        // name[subscript]
    | Assignment(lvalue: Node, rvalue: Node)
    | UnaryOp(op: string, expr: Node)                   // &x, *p, x++, sizeof(...)
    | Cast(toType: Node, expr: Node)
    | Return(result: Option<Node>)                      // has an `expr` attribute, possibly None
    | Typename(typeName: Option<string>, ty: Node)
    | Constant(constType: string, value: string)
    | StructRef(structName: Node, field: Node)          // s.field, p->field
    | Struct(tag: Option<string>)
    | PtrDecl(ty: Node)
    | TypeDecl(declname: Option<string>, ty: Node)
    | IdentifierType(names: seq<string>)
    | ArrayDecl(ty: Node)
    | FuncCall(callee: Node, args: seq<Node>)
    | Other(kind: string)

  /** The node's `expr` attribute, for the classes that have one (Return's may be None). */
  function ExprOf(node: Node): (r: Option<Node>)
    ensures r.Some? ==> node.UnaryOp? || node.Cast? || node.Return?
  {
    match node
    case UnaryOp(_, e) => Some(e)
    case Cast(_, e) => Some(e)
    case Return(e) => e
    case _ => None
  }

  /** The node class has an `expr` attribute at all. */
  predicate HasExpr(node: Node)
  {
    node.UnaryOp? || node.Cast? || node.Return?
  }
}
