/**
 * The part of a Go syntax tree that the analyzer looks at, with every type
 * already resolved by the type checker (types.Info is not part of this model).
 */
module Ast {
  import opened Wrappers

  /** A resolved Go type, as far as keying needs it: a named type, a pointer, or anything else. */
  datatype GoType = Named(name: string) | Pointer(elem: GoType) | OtherType

  /**
   * One parameter field: `a, b int` is Field("int", 2); an unnamed parameter
   * such as the `int` in `func(int)` is Field("int", 0).
   */
  datatype Field = Field(typ: string, names: nat)

  /** The function part of a call expression `Fun(args)`. */
  datatype FunExpr =
    | NoFun                                          // Fun is nil
    | Ident(name: string)                            // `f(...)`
    | Selector(x: Option<GoType>, sel: Option<string>) // `x.Sel(...)`; x is the type of x, None when x is nil or untyped
    | OtherFun                                       // index expressions, function literals, parenthesised forms, ...

  datatype CallExpr = CallExpr(fun: FunExpr)

  /**
   * A function declaration. `recv` is the type of the first receiver field
   * (None for a plain function); `calls` lists every call expression found
   * anywhere in the declaration, in the order ast.Inspect visits them (depth
   * first, an enclosing call before the calls in its arguments), including
   * conversions such as `float64(x)` and calls into other packages.
   */
  datatype FuncDecl = FuncDecl(recv: Option<GoType>, name: string, params: seq<Field>, calls: seq<CallExpr>)
}
