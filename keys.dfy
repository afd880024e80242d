/**
 * The identity keyer: the string that is the only thing matching a call
 * site to a declaration. A method on type T (or *T) named M keys as "T.M",
 * any other function as its bare name.
 */
module Keys {
  import opened Wrappers
  import opened Ast

  /** The bare name of a named type, after removing one level of pointer. */
  function NamedTypeName(t: GoType): Option<string>
  {
    var u := if t.Pointer? then t.elem else t;
    if u.Named? then Some(u.name) else None
  }

  /** funcDeclToKey: nil has the empty key; a method on a named type is qualified by that type's name. */
  function FuncDeclToKey(f: Option<FuncDecl>): (k: string)
    ensures f.None? ==> k == ""
    ensures f.Some? && f.value.recv.Some? && f.value.recv.value.Named? ==>
              k == f.value.recv.value.name + "." + f.value.name
    ensures f.Some? && f.value.recv.Some? && f.value.recv.value.Pointer? && f.value.recv.value.elem.Named? ==>
              k == f.value.recv.value.elem.name + "." + f.value.name
    ensures f.Some? && (f.value.recv.None? || NamedTypeName(f.value.recv.value).None?) ==> k == f.value.name
  {
    match f
    case None => ""
    case Some(d) =>
      var prefix := if d.recv.Some? && NamedTypeName(d.recv.value).Some?
                    then NamedTypeName(d.recv.value).value + "." else "";
      prefix + d.name
  }

  /**
   * callExprToKey: a bare identifier keys as itself; a selector whose operand
   * has a named (or pointer-to-named) type keys as "T.Sel"; everything else
   * is unresolved, reported as ("", false).
   */
  function CallExprToKey(c: Option<CallExpr>): (r: (string, bool))
    ensures !r.1 ==> r.0 == ""
    ensures c.Some? && c.value.fun.Ident? ==> r == (c.value.fun.name, true)
    ensures c.Some? && c.value.fun.Selector? && c.value.fun.x.Some? && c.value.fun.sel.Some?
            && NamedTypeName(c.value.fun.x.value).Some? ==>
              r == (NamedTypeName(c.value.fun.x.value).value + "." + c.value.fun.sel.value, true)
    ensures r.1 <==> c.Some? && (c.value.fun.Ident? ||
                                 (c.value.fun.Selector? && c.value.fun.x.Some? && c.value.fun.sel.Some?
                                  && NamedTypeName(c.value.fun.x.value).Some?))
  {
    match c
    case None => ("", false)
    case Some(call) =>
      match call.fun
      case Selector(x, sel) =>
        if x.None? || sel.None? then ("", false)
        else if NamedTypeName(x.value).Some? then (NamedTypeName(x.value).value + "." + sel.value, true)
        else ("", false)
      case Ident(name) => (name, true)
      case _ => ("", false)
  }

  /**
   * A call `x.M(...)` on a value whose type is T or *T and a method
   * `func (r T) M` or `func (r *T) M` produce the same key, whichever side
   * carries the pointer.
   */
  lemma MethodKeysCoincide(d: FuncDecl, c: CallExpr)
    requires d.recv.Some? && NamedTypeName(d.recv.value).Some?
    requires c.fun.Selector? && c.fun.x.Some? && c.fun.sel == Some(d.name)
    requires NamedTypeName(c.fun.x.value) == NamedTypeName(d.recv.value)
    ensures CallExprToKey(Some(c)) == (FuncDeclToKey(Some(d)), true)
  {
  }

  /** A call `f(...)` by bare name and a plain function `func f` produce the same key. */
  lemma FunctionKeysCoincide(d: FuncDecl, c: CallExpr)
    requires d.recv.None? && c.fun == Ident(d.name)
    ensures CallExprToKey(Some(c)) == (FuncDeclToKey(Some(d)), true)
  {
  }
}
