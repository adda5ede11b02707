/**
 * The part of `syn`'s syntax tree that the `#[js_fn]` helpers in
 * ion-proc/src/utils.rs read and rewrite: type expressions, their paths,
 * generic arguments and trait bounds, lifetimes, and binding patterns.
 * Expressions (array lengths, const generic arguments) are opaque token text.
 */
module Syn {

  datatype Option<+T> = None | Some(value: T)

  /** Characters that may start a (non-raw, ASCII) Rust identifier. */
  predicate IsIdentStart(c: char) {
    'a' <= c <= 'z' || 'A' <= c <= 'Z' || c == '_'
  }

  /** Characters that may continue a (non-raw, ASCII) Rust identifier. */
  predicate IsIdentContinue(c: char) {
    IsIdentStart(c) || '0' <= c <= '9'
  }

  predicate IsIdent(s: string) {
    && |s| > 0
    && s != "_"
    && IsIdentStart(s[0])
    && forall i :: 1 <= i < |s| ==> IsIdentContinue(s[i])
  }

  /** `proc_macro2::Ident`: syn only ever builds well-formed identifiers. */
  type Ident = s: string | IsIdent(s) witness "x"

  /** The name after a lifetime's apostrophe: an identifier, or `_` for `'_`. */
  type LifetimeName = s: string | s == "_" || IsIdent(s) witness "a"

  /** `syn::Lifetime`; equality compares the name after the apostrophe. */
  datatype Lifetime = Lifetime(ident: LifetimeName)

  /** The lifetime `'static`, the one the remover keeps. */
  const Static: Lifetime := Lifetime("static")

  /** `syn::Type`. `Other` stands for macro invocations and verbatim tokens. */
  datatype Type =
    | Path(path: TypePath)
    | Reference(lifetime: Option<Lifetime>, mutable: bool, elem: Type)
    | Ptr(mutable: bool, elem: Type)
    | Slice(elem: Type)
    | Array(elem: Type, len: string)
    | Tuple(elems: seq<Type>)
    | Paren(elem: Type)
    | Group(elem: Type)
    | BareFn(inputs: seq<Type>, output: Option<Type>)
    | TraitObject(bounds: seq<Bound>)
    | ImplTrait(bounds: seq<Bound>)
    | Never
    | Infer
    | Other(tokens: string)

  /** `syn::TypePath`: an optional qualified self type and the path's segments. */
  datatype TypePath = TypePath(qself: Option<Type>, segments: seq<PathSegment>)

  datatype PathSegment = PathSegment(ident: Ident, arguments: PathArguments)

  /** `syn::PathArguments`: nothing, `<...>`, or `(A, B) -> C`. */
  datatype PathArguments =
    | NoArguments
    | AngleBracketed(args: seq<GenericArgument>)
    | Parenthesized(inputs: seq<Type>, output: Option<Type>)

  /** `syn::GenericArgument`. */
  datatype GenericArgument =
    | LifetimeArg(lifetime: Lifetime)
    | TypeArg(ty: Type)
    | ConstArg(expr: string)
    | AssocTypeArg(name: Ident, ty: Type)
    | AssocConstArg(name: Ident, expr: string)
    | ConstraintArg(name: Ident, bounds: seq<Bound>)

  /** `syn::TypeParamBound`: a trait path or a lifetime. */
  datatype Bound =
    | TraitBound(segments: seq<PathSegment>)
    | LifetimeBound(lifetime: Lifetime)

  /** `syn::Pat`, with the pattern kinds a function parameter can take. */
  datatype Pat =
    | PatIdent(byRef: bool, mutable: bool, ident: Ident, subpat: Option<Pat>)
    | PatWild
    | PatTuple(elems: seq<Pat>)
    | PatReference(mutable: bool, pat: Pat)
    | PatType(pat: Pat, ty: Type)
    | PatOther(tokens: string)

  /** The last element of a non-empty sequence (`Punctuated::last`). */
  function Last<T>(s: seq<T>): T
    requires |s| > 0
  {
    s[|s| - 1]
  }
}
