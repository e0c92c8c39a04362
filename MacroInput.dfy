// The part of the Rust expression syntax that the macro's input is made of.
// Parsing the macro's token stream into this tree belongs to the host
// compiler and is not modelled; the tree is what the URL builder walks.

module MacroInput {

  /** A literal: an integer is kept as its decimal digits (the text
      `base10_digits` yields, suffix and underscores gone), a string literal
      as its value; any other literal (float, char, bool, ...) is `OtherLit`. */
  datatype Lit =
    | IntLit(digits: string)
    | StrLit(value: string)
    | OtherLit

  /** An expression of the macro input. A path keeps its first segment apart
      from the rest, since only that segment is ever read; every expression
      form the builder never looks into is `OtherExpr`. */
  datatype Expr =
    | LitExpr(lit: Lit)
    | Tuple(elems: seq<Expr>)
    | Array(elems: seq<Expr>)
    | Assign(left: Expr, right: Expr)
    | Path(head: string, tail: seq<string>)
    | OtherExpr
}
