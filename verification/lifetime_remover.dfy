/**
 * `LifetimeRemover` (ion-proc/src/utils.rs:36-59): a `VisitMut` that
 *   - in a type path, drops from the LAST segment's `<...>` list every
 *     lifetime argument other than `'static`, then lets syn's default
 *     `visit_type_path_mut` walk the qualified self type and every segment;
 *   - in a reference type, clears the lifetime unless it is `'static`, then
 *     lets syn's default `visit_type_reference_mut` walk the element type.
 * Every other node is walked by syn's default recursion, which changes nothing
 * itself. Rust rewrites the owned tree in place through `&mut`; with no
 * aliasing that is the same as returning the rewritten tree, which is what the
 * `Visit*` functions below do.
 */
module LifetimeRemover {
  import opened Syn
  import opened TypeUtils

  /** The filter closure of utils.rs:43-46: keep all but non-`'static` lifetimes. */
  predicate Keeps(g: GenericArgument) {
    !g.LifetimeArg? || g.lifetime == Static
  }

  /** An argument list holding no lifetime other than `'static`. */
  predicate NoLooseLifetimes(args: seq<GenericArgument>) {
    forall j :: 0 <= j < |args| ==> Keeps(args[j])
  }

  /** The filtering step of utils.rs:42-47 on its own, in the list's order. */
  function FilterLifetimes(args: seq<GenericArgument>): (r: seq<GenericArgument>)
    ensures |r| <= |args|
    ensures NoLooseLifetimes(r)
    ensures forall g :: g in r ==> g in args
  {
    if args == [] then []
    else (if Keeps(args[0]) then [args[0]] else []) + FilterLifetimes(args[1..])
  }

  // ---------------------------------------------------------------------------
  // The rewrite: syn's `visit_*_mut` recursion with the two overrides.
  // ---------------------------------------------------------------------------

  /** `visit_type_mut`: dispatches to the two overrides and walks every child type. */
  function VisitType(t: Type): Type
  {
    match t
    case Path(p) => Path(VisitTypePath(p))
    case Reference(lt, m, e) =>
      Reference(if lt == Some(Static) then lt else None, m, VisitType(e))
    case Ptr(m, e) => Ptr(m, VisitType(e))
    case Slice(e) => Slice(VisitType(e))
    case Array(e, n) => Array(VisitType(e), n)
    case Tuple(es) => Tuple(seq(|es|, i requires 0 <= i < |es| => VisitType(es[i])))
    case Paren(e) => Paren(VisitType(e))
    case Group(e) => Group(VisitType(e))
    case BareFn(ins, out) =>
      BareFn(seq(|ins|, i requires 0 <= i < |ins| => VisitType(ins[i])), VisitOptType(out))
    case TraitObject(bs) => TraitObject(seq(|bs|, i requires 0 <= i < |bs| => VisitBound(bs[i])))
    case ImplTrait(bs) => ImplTrait(seq(|bs|, i requires 0 <= i < |bs| => VisitBound(bs[i])))
    case Never => t
    case Infer => t
    case Other(_) => t
  }

  function VisitOptType(o: Option<Type>): Option<Type>
  {
    match o
    case None => None
    case Some(t) => Some(VisitType(t))
  }

  /** The `visit_type_path_mut` override: filter the last segment, then walk everything. */
  function VisitTypePath(p: TypePath): TypePath
  {
    var n := |p.segments|;
    TypePath(VisitOptType(p.qself),
             seq(n, i requires 0 <= i < n =>
               if i == n - 1 then VisitLastSegment(p.segments[i]) else VisitSegment(p.segments[i])))
  }

  /** The last segment of a type path: its `<...>` list is filtered and walked. */
  function VisitLastSegment(s: PathSegment): PathSegment
  {
    match s.arguments
    case AngleBracketed(args) => PathSegment(s.ident, AngleBracketed(VisitFilteredArgs(args)))
    case _ => PathSegment(s.ident, VisitArguments(s.arguments))
  }

  /** `visit_path_segment_mut`: any other segment is walked but not filtered. */
  function VisitSegment(s: PathSegment): PathSegment
  {
    PathSegment(s.ident, VisitArguments(s.arguments))
  }

  function VisitArguments(a: PathArguments): PathArguments
  {
    match a
    case NoArguments => a
    case AngleBracketed(args) => AngleBracketed(VisitGenericArgs(args))
    case Parenthesized(ins, out) =>
      Parenthesized(seq(|ins|, i requires 0 <= i < |ins| => VisitType(ins[i])), VisitOptType(out))
  }

  function VisitGenericArgs(args: seq<GenericArgument>): seq<GenericArgument>
  {
    seq(|args|, j requires 0 <= j < |args| => VisitGenericArg(args[j]))
  }

  /**
   * The filter of utils.rs:42-47 followed by the walk of utils.rs:50, in one
   * pass over the list (see FilteredArgsIsFilterThenVisit).
   */
  function VisitFilteredArgs(args: seq<GenericArgument>): (r: seq<GenericArgument>)
    ensures |r| <= |args|
    ensures NoLooseLifetimes(r)
  {
    if args == [] then []
    else (if Keeps(args[0]) then [VisitGenericArg(args[0])] else []) + VisitFilteredArgs(args[1..])
  }

  /** `visit_generic_argument_mut`: lifetimes and expressions are left as they are. */
  function VisitGenericArg(g: GenericArgument): GenericArgument
  {
    match g
    case LifetimeArg(_) => g
    case TypeArg(t) => TypeArg(VisitType(t))
    case ConstArg(_) => g
    case AssocTypeArg(name, t) => AssocTypeArg(name, VisitType(t))
    case AssocConstArg(_, _) => g
    case ConstraintArg(name, bs) =>
      ConstraintArg(name, seq(|bs|, i requires 0 <= i < |bs| => VisitBound(bs[i])))
  }

  /**
   * `visit_type_param_bound_mut`: a trait bound's path is a `Path`, not a
   * `TypePath`, so the override does not filter it; its types are still walked.
   */
  function VisitBound(b: Bound): Bound
  {
    match b
    case TraitBound(segs) => TraitBound(seq(|segs|, i requires 0 <= i < |segs| => VisitSegment(segs[i])))
    case LifetimeBound(_) => b
  }

  // ---------------------------------------------------------------------------
  // What one pass leaves behind.
  // ---------------------------------------------------------------------------

  /**
   * No reference and no type path's last-segment `<...>` list anywhere in `t`
   * carries a lifetime other than `'static`.
   */
  predicate StrippedType(t: Type) {
    match t
    case Path(p) => StrippedTypePath(p)
    case Reference(lt, _, e) => (lt == None || lt == Some(Static)) && StrippedType(e)
    case Ptr(_, e) => StrippedType(e)
    case Slice(e) => StrippedType(e)
    case Array(e, _) => StrippedType(e)
    case Tuple(es) => forall i :: 0 <= i < |es| ==> StrippedType(es[i])
    case Paren(e) => StrippedType(e)
    case Group(e) => StrippedType(e)
    case BareFn(ins, out) => (forall i :: 0 <= i < |ins| ==> StrippedType(ins[i])) && StrippedOptType(out)
    case TraitObject(bs) => forall i :: 0 <= i < |bs| ==> StrippedBound(bs[i])
    case ImplTrait(bs) => forall i :: 0 <= i < |bs| ==> StrippedBound(bs[i])
    case Never => true
    case Infer => true
    case Other(_) => true
  }

  predicate StrippedOptType(o: Option<Type>) {
    match o
    case None => true
    case Some(t) => StrippedType(t)
  }

  predicate StrippedTypePath(p: TypePath) {
    && StrippedOptType(p.qself)
    && (forall i :: 0 <= i < |p.segments| ==> StrippedSegment(p.segments[i]))
    && (|p.segments| > 0 ==> StrippedLastSegment(Last(p.segments)))
  }

  /** The last segment's `<...>` list, if it has one, has no loose lifetime. */
  predicate StrippedLastSegment(s: PathSegment) {
    s.arguments.AngleBracketed? ==> NoLooseLifetimes(s.arguments.args)
  }

  /** Every type nested in the segment's arguments is stripped. */
  predicate StrippedSegment(s: PathSegment) {
    StrippedArguments(s.arguments)
  }

  predicate StrippedArguments(a: PathArguments) {
    match a
    case NoArguments => true
    case AngleBracketed(args) => forall j :: 0 <= j < |args| ==> StrippedGenericArg(args[j])
    case Parenthesized(ins, out) =>
      (forall i :: 0 <= i < |ins| ==> StrippedType(ins[i])) && StrippedOptType(out)
  }

  predicate StrippedGenericArg(g: GenericArgument) {
    match g
    case LifetimeArg(_) => true
    case TypeArg(t) => StrippedType(t)
    case ConstArg(_) => true
    case AssocTypeArg(_, t) => StrippedType(t)
    case AssocConstArg(_, _) => true
    case ConstraintArg(_, bs) => forall i :: 0 <= i < |bs| ==> StrippedBound(bs[i])
  }

  predicate StrippedBound(b: Bound) {
    match b
    case TraitBound(segs) => forall i :: 0 <= i < |segs| ==> StrippedSegment(segs[i])
    case LifetimeBound(_) => true
  }

  // ---------------------------------------------------------------------------
  // The two halves of the node-level behaviour.
  // ---------------------------------------------------------------------------

  /** In a reference, `'static` stays and any other lifetime becomes `None`. */
  lemma VisitReference(lt: Option<Lifetime>, m: bool, e: Type)
    ensures var r := VisitType(Reference(lt, m, e));
            && r.Reference? && r.mutable == m && r.elem == VisitType(e)
            && (r.lifetime == Some(Static) <==> lt == Some(Static))
            && (r.lifetime != Some(Static) ==> r.lifetime == None)
  {
  }

  /** The anonymous lifetime `'_` is not `'static`: a reference loses it and the filter drops it. */
  lemma AnonymousLifetimeRemoved(m: bool, e: Type)
    ensures VisitType(Reference(Some(Lifetime("_")), m, e)).lifetime == None
    ensures FilterLifetimes([LifetimeArg(Lifetime("_"))]) == []
  {
  }

  /** The filter keeps exactly the arguments `Keeps` accepts. */
  lemma {:induction false} FilterLifetimesMembers(args: seq<GenericArgument>)
    ensures forall g :: g in FilterLifetimes(args) <==> g in args && Keeps(g)
    ensures NoLooseLifetimes(FilterLifetimes(args))
  {
    if args != [] {
      FilterLifetimesMembers(args[1..]);
      assert args == [args[0]] + args[1..];
    }
  }

  /** The filter keeps the order of what it keeps: it distributes over concatenation. */
  lemma {:induction false} FilterLifetimesAppend(a: seq<GenericArgument>, b: seq<GenericArgument>)
    ensures FilterLifetimes(a + b) == FilterLifetimes(a) + FilterLifetimes(b)
  {
    if a == [] {
      assert a + b == b;
    } else {
      assert (a + b)[0] == a[0];
      assert (a + b)[1..] == a[1..] + b;
      FilterLifetimesAppend(a[1..], b);
    }
  }

  /** A list with no loose lifetime is left as it is by the filter. */
  lemma {:induction false} FilterLifetimesNoLoose(args: seq<GenericArgument>)
    requires NoLooseLifetimes(args)
    ensures FilterLifetimes(args) == args
  {
    if args != [] {
      FilterLifetimesNoLoose(args[1..]);
      assert args == [args[0]] + args[1..];
    }
  }

  lemma {:induction false} VisitGenericArgsTail(args: seq<GenericArgument>)
    requires args != []
    ensures VisitGenericArgs(args) == [VisitGenericArg(args[0])] + VisitGenericArgs(args[1..])
  {
  }

  /** The one-pass list rewrite is the source's filter followed by the walk. */
  lemma {:induction false} FilteredArgsIsFilterThenVisit(args: seq<GenericArgument>)
    ensures VisitFilteredArgs(args) == VisitGenericArgs(FilterLifetimes(args))
  {
    if args != [] {
      FilteredArgsIsFilterThenVisit(args[1..]);
      var rest := FilterLifetimes(args[1..]);
      if Keeps(args[0]) {
        VisitGenericArgsTail([args[0]] + rest);
        assert ([args[0]] + rest)[1..] == rest;
      }
    }
  }

  /**
   * On a path: the segments keep their number and names; the last segment's
   * `<...>` list is filtered and then walked; every earlier segment is only
   * walked, so its list keeps its length and every lifetime in its place.
   */
  lemma VisitTypePathShape(p: TypePath)
    ensures var r := VisitTypePath(p);
            && |r.segments| == |p.segments|
            && r.qself == VisitOptType(p.qself)
            && (forall i :: 0 <= i < |p.segments| ==> r.segments[i].ident == p.segments[i].ident)
            && (forall i :: 0 <= i < |p.segments| - 1 ==> r.segments[i] == VisitSegment(p.segments[i]))
            && (|p.segments| > 0 && Last(p.segments).arguments.AngleBracketed? ==>
                  Last(r.segments).arguments ==
                    AngleBracketed(VisitGenericArgs(FilterLifetimes(Last(p.segments).arguments.args))))
            && (|p.segments| > 0 && !Last(p.segments).arguments.AngleBracketed? ==>
                  Last(r.segments) == VisitSegment(Last(p.segments)))
  {
    var r := VisitTypePath(p);
    if |p.segments| > 0 && Last(p.segments).arguments.AngleBracketed? {
      var args := Last(p.segments).arguments.args;
      assert Last(r.segments) == VisitLastSegment(Last(p.segments));
      FilteredArgsIsFilterThenVisit(args);
    }
  }

  /** The walk of a non-last segment's `<...>` list drops nothing and keeps every lifetime. */
  lemma VisitSegmentKeepsLifetimes(s: PathSegment)
    requires s.arguments.AngleBracketed?
    ensures var r := VisitSegment(s);
            && r.arguments.AngleBracketed?
            && |r.arguments.args| == |s.arguments.args|
            && forall j :: 0 <= j < |s.arguments.args| && s.arguments.args[j].LifetimeArg? ==>
                 r.arguments.args[j] == s.arguments.args[j]
  {
    var args := s.arguments.args;
    assert s.arguments == AngleBracketed(args);
    assert VisitSegment(s).arguments == AngleBracketed(VisitGenericArgs(args));
  }

  // ---------------------------------------------------------------------------
  // One pass reaches every position: its result is stripped.
  // ---------------------------------------------------------------------------

  lemma {:induction false} VisitTypeStripped(t: Type)
    ensures StrippedType(VisitType(t))
  {
    match t
    case Path(p) => VisitTypePathStripped(p);
    case Reference(_, _, e) => VisitTypeStripped(e);
    case Ptr(_, e) => VisitTypeStripped(e);
    case Slice(e) => VisitTypeStripped(e);
    case Array(e, _) => VisitTypeStripped(e);
    case Tuple(es) =>
      forall i | 0 <= i < |es| { VisitTypeStripped(es[i]); }
    case Paren(e) => VisitTypeStripped(e);
    case Group(e) => VisitTypeStripped(e);
    case BareFn(ins, out) =>
      forall i | 0 <= i < |ins| { VisitTypeStripped(ins[i]); }
      VisitOptTypeStripped(out);
    case TraitObject(bs) =>
      forall i | 0 <= i < |bs| { VisitBoundStripped(bs[i]); }
    case ImplTrait(bs) =>
      forall i | 0 <= i < |bs| { VisitBoundStripped(bs[i]); }
    case Never =>
    case Infer =>
    case Other(_) =>
  }

  lemma {:induction false} VisitOptTypeStripped(o: Option<Type>)
    ensures StrippedOptType(VisitOptType(o))
  {
    match o
    case None =>
    case Some(t) => VisitTypeStripped(t);
  }

  lemma {:induction false} VisitTypePathStripped(p: TypePath)
    ensures StrippedTypePath(VisitTypePath(p))
  {
    var n := |p.segments|;
    VisitOptTypeStripped(p.qself);
    forall i | 0 <= i < n
      ensures StrippedSegment(VisitTypePath(p).segments[i])
    {
      if i == n - 1 {
        VisitLastSegmentStripped(p.segments[i]);
      } else {
        VisitSegmentStripped(p.segments[i]);
      }
    }
    if n > 0 {
      VisitLastSegmentStripped(p.segments[n - 1]);
    }
  }

  lemma {:induction false} VisitLastSegmentStripped(s: PathSegment)
    ensures StrippedSegment(VisitLastSegment(s)) && StrippedLastSegment(VisitLastSegment(s))
  {
    match s.arguments
    case AngleBracketed(args) => VisitFilteredArgsStripped(args);
    case _ => VisitArgumentsStripped(s.arguments);
  }

  lemma {:induction false} VisitSegmentStripped(s: PathSegment)
    ensures StrippedSegment(VisitSegment(s))
  {
    VisitArgumentsStripped(s.arguments);
  }

  lemma {:induction false} VisitArgumentsStripped(a: PathArguments)
    ensures StrippedArguments(VisitArguments(a))
  {
    match a
    case NoArguments =>
    case AngleBracketed(args) =>
      forall j | 0 <= j < |args| { VisitGenericArgStripped(args[j]); }
    case Parenthesized(ins, out) =>
      forall i | 0 <= i < |ins| { VisitTypeStripped(ins[i]); }
      VisitOptTypeStripped(out);
  }

  lemma {:induction false} VisitFilteredArgsStripped(args: seq<GenericArgument>)
    ensures var r := VisitFilteredArgs(args);
            NoLooseLifetimes(r) && forall j :: 0 <= j < |r| ==> StrippedGenericArg(r[j])
  {
    if args != [] {
      VisitGenericArgStripped(args[0]);
      VisitFilteredArgsStripped(args[1..]);
    }
  }

  lemma {:induction false} VisitGenericArgStripped(g: GenericArgument)
    ensures StrippedGenericArg(VisitGenericArg(g))
  {
    match g
    case LifetimeArg(_) =>
    case TypeArg(t) => VisitTypeStripped(t);
    case ConstArg(_) =>
    case AssocTypeArg(_, t) => VisitTypeStripped(t);
    case AssocConstArg(_, _) =>
    case ConstraintArg(_, bs) =>
      forall i | 0 <= i < |bs| { VisitBoundStripped(bs[i]); }
  }

  lemma {:induction false} VisitBoundStripped(b: Bound)
    ensures StrippedBound(VisitBound(b))
  {
    match b
    case TraitBound(segs) =>
      forall i | 0 <= i < |segs| { VisitSegmentStripped(segs[i]); }
    case LifetimeBound(_) =>
  }

  // ---------------------------------------------------------------------------
  // A stripped tree is left exactly as it is.
  // ---------------------------------------------------------------------------

  lemma {:induction false} VisitTypeFixed(t: Type)
    requires StrippedType(t)
    ensures VisitType(t) == t
  {
    match t
    case Path(p) => VisitTypePathFixed(p);
    case Reference(_, _, e) => VisitTypeFixed(e);
    case Ptr(_, e) => VisitTypeFixed(e);
    case Slice(e) => VisitTypeFixed(e);
    case Array(e, _) => VisitTypeFixed(e);
    case Tuple(es) =>
      forall i | 0 <= i < |es| { VisitTypeFixed(es[i]); }
      assert VisitType(t).elems == es;
    case Paren(e) => VisitTypeFixed(e);
    case Group(e) => VisitTypeFixed(e);
    case BareFn(ins, out) =>
      forall i | 0 <= i < |ins| { VisitTypeFixed(ins[i]); }
      VisitOptTypeFixed(out);
      assert VisitType(t).inputs == ins;
    case TraitObject(bs) =>
      forall i | 0 <= i < |bs| { VisitBoundFixed(bs[i]); }
      assert VisitType(t).bounds == bs;
    case ImplTrait(bs) =>
      forall i | 0 <= i < |bs| { VisitBoundFixed(bs[i]); }
      assert VisitType(t).bounds == bs;
    case Never =>
    case Infer =>
    case Other(_) =>
  }

  lemma {:induction false} VisitOptTypeFixed(o: Option<Type>)
    requires StrippedOptType(o)
    ensures VisitOptType(o) == o
  {
    match o
    case None =>
    case Some(t) => VisitTypeFixed(t);
  }

  lemma {:induction false} VisitTypePathFixed(p: TypePath)
    requires StrippedTypePath(p)
    ensures VisitTypePath(p) == p
  {
    var n := |p.segments|;
    VisitOptTypeFixed(p.qself);
    forall i | 0 <= i < n
      ensures VisitTypePath(p).segments[i] == p.segments[i]
    {
      if i == n - 1 {
        VisitLastSegmentFixed(p.segments[i]);
      } else {
        VisitSegmentFixed(p.segments[i]);
      }
    }
    assert VisitTypePath(p).segments == p.segments;
  }

  lemma {:induction false} VisitLastSegmentFixed(s: PathSegment)
    requires StrippedSegment(s) && StrippedLastSegment(s)
    ensures VisitLastSegment(s) == s
  {
    match s.arguments
    case AngleBracketed(args) => VisitFilteredArgsFixed(args);
    case _ => VisitArgumentsFixed(s.arguments);
  }

  lemma {:induction false} VisitSegmentFixed(s: PathSegment)
    requires StrippedSegment(s)
    ensures VisitSegment(s) == s
  {
    VisitArgumentsFixed(s.arguments);
  }

  lemma {:induction false} VisitArgumentsFixed(a: PathArguments)
    requires StrippedArguments(a)
    ensures VisitArguments(a) == a
  {
    match a
    case NoArguments =>
    case AngleBracketed(args) =>
      forall j | 0 <= j < |args| { VisitGenericArgFixed(args[j]); }
      assert VisitGenericArgs(args) == args;
    case Parenthesized(ins, out) =>
      forall i | 0 <= i < |ins| { VisitTypeFixed(ins[i]); }
      VisitOptTypeFixed(out);
      assert VisitArguments(a).inputs == ins;
  }

  lemma {:induction false} VisitFilteredArgsFixed(args: seq<GenericArgument>)
    requires NoLooseLifetimes(args)
    requires forall j :: 0 <= j < |args| ==> StrippedGenericArg(args[j])
    ensures VisitFilteredArgs(args) == args
  {
    if args != [] {
      VisitGenericArgFixed(args[0]);
      VisitFilteredArgsFixed(args[1..]);
      assert args == [args[0]] + args[1..];
    }
  }

  lemma {:induction false} VisitGenericArgFixed(g: GenericArgument)
    requires StrippedGenericArg(g)
    ensures VisitGenericArg(g) == g
  {
    match g
    case LifetimeArg(_) =>
    case TypeArg(t) => VisitTypeFixed(t);
    case ConstArg(_) =>
    case AssocTypeArg(_, t) => VisitTypeFixed(t);
    case AssocConstArg(_, _) =>
    case ConstraintArg(_, bs) =>
      forall i | 0 <= i < |bs| { VisitBoundFixed(bs[i]); }
      assert VisitGenericArg(g).bounds == bs;
  }

  lemma {:induction false} VisitBoundFixed(b: Bound)
    requires StrippedBound(b)
    ensures VisitBound(b) == b
  {
    match b
    case TraitBound(segs) =>
      forall i | 0 <= i < |segs| { VisitSegmentFixed(segs[i]); }
      assert VisitBound(b).segments == segs;
    case LifetimeBound(_) =>
  }

  /** Running the remover twice gives the same tree as running it once. */
  lemma VisitTypeIdempotent(t: Type)
    ensures VisitType(VisitType(t)) == VisitType(t)
  {
    VisitTypeStripped(t);
    VisitTypeFixed(VisitType(t));
  }

  // ---------------------------------------------------------------------------
  // Nothing but non-`'static` lifetimes changes.
  // ---------------------------------------------------------------------------

  /**
   * `t` with every lifetime the remover could drop forgotten, wherever it
   * stands: a reference's lifetime other than `'static` becomes `None` and a
   * lifetime argument other than `'static` leaves whichever `<...>` list holds
   * it. `'static` is kept everywhere, and lifetime bounds are left alone.
   */
  function EraseType(t: Type): Type
  {
    match t
    case Path(p) => Path(EraseTypePath(p))
    case Reference(lt, m, e) =>
      Reference(if lt == Some(Static) then lt else None, m, EraseType(e))
    case Ptr(m, e) => Ptr(m, EraseType(e))
    case Slice(e) => Slice(EraseType(e))
    case Array(e, n) => Array(EraseType(e), n)
    case Tuple(es) => Tuple(seq(|es|, i requires 0 <= i < |es| => EraseType(es[i])))
    case Paren(e) => Paren(EraseType(e))
    case Group(e) => Group(EraseType(e))
    case BareFn(ins, out) =>
      BareFn(seq(|ins|, i requires 0 <= i < |ins| => EraseType(ins[i])), EraseOptType(out))
    case TraitObject(bs) => TraitObject(seq(|bs|, i requires 0 <= i < |bs| => EraseBound(bs[i])))
    case ImplTrait(bs) => ImplTrait(seq(|bs|, i requires 0 <= i < |bs| => EraseBound(bs[i])))
    case Never => t
    case Infer => t
    case Other(_) => t
  }

  function EraseOptType(o: Option<Type>): Option<Type>
  {
    match o
    case None => None
    case Some(t) => Some(EraseType(t))
  }

  function EraseTypePath(p: TypePath): TypePath
  {
    TypePath(EraseOptType(p.qself),
             seq(|p.segments|, i requires 0 <= i < |p.segments| => EraseSegment(p.segments[i])))
  }

  function EraseSegment(s: PathSegment): PathSegment
  {
    PathSegment(s.ident, EraseArguments(s.arguments))
  }

  function EraseArguments(a: PathArguments): PathArguments
  {
    match a
    case NoArguments => a
    case AngleBracketed(args) => AngleBracketed(EraseArgs(args))
    case Parenthesized(ins, out) =>
      Parenthesized(seq(|ins|, i requires 0 <= i < |ins| => EraseType(ins[i])), EraseOptType(out))
  }

  function EraseArgs(args: seq<GenericArgument>): seq<GenericArgument>
  {
    if args == [] then []
    else (if Keeps(args[0]) then [EraseGenericArg(args[0])] else []) + EraseArgs(args[1..])
  }

  function EraseGenericArg(g: GenericArgument): GenericArgument
  {
    match g
    case LifetimeArg(_) => g
    case TypeArg(t) => TypeArg(EraseType(t))
    case ConstArg(_) => g
    case AssocTypeArg(name, t) => AssocTypeArg(name, EraseType(t))
    case AssocConstArg(_, _) => g
    case ConstraintArg(name, bs) =>
      ConstraintArg(name, seq(|bs|, i requires 0 <= i < |bs| => EraseBound(bs[i])))
  }

  function EraseBound(b: Bound): Bound
  {
    match b
    case TraitBound(segs) => TraitBound(seq(|segs|, i requires 0 <= i < |segs| => EraseSegment(segs[i])))
    case LifetimeBound(_) => b
  }

  /**
   * The remover only ever forgets lifetimes other than `'static`: once those
   * are forgotten on both sides, its result and its input are the same tree.
   * So every type, const, associated item, bound, name and `'static` lifetime
   * stays where it was.
   */
  lemma {:induction false} EraseVisitType(t: Type)
    ensures EraseType(VisitType(t)) == EraseType(t)
  {
    match t
    case Path(p) => EraseVisitTypePath(p);
    case Reference(_, _, e) => EraseVisitType(e);
    case Ptr(_, e) => EraseVisitType(e);
    case Slice(e) => EraseVisitType(e);
    case Array(e, _) => EraseVisitType(e);
    case Tuple(es) =>
      forall i | 0 <= i < |es| { EraseVisitType(es[i]); }
      assert EraseType(VisitType(t)).elems == EraseType(t).elems;
    case Paren(e) => EraseVisitType(e);
    case Group(e) => EraseVisitType(e);
    case BareFn(ins, out) =>
      forall i | 0 <= i < |ins| { EraseVisitType(ins[i]); }
      EraseVisitOptType(out);
      assert EraseType(VisitType(t)).inputs == EraseType(t).inputs;
    case TraitObject(bs) =>
      forall i | 0 <= i < |bs| { EraseVisitBound(bs[i]); }
      assert EraseType(VisitType(t)).bounds == EraseType(t).bounds;
    case ImplTrait(bs) =>
      forall i | 0 <= i < |bs| { EraseVisitBound(bs[i]); }
      assert EraseType(VisitType(t)).bounds == EraseType(t).bounds;
    case Never =>
    case Infer =>
    case Other(_) =>
  }

  lemma {:induction false} EraseVisitOptType(o: Option<Type>)
    ensures EraseOptType(VisitOptType(o)) == EraseOptType(o)
  {
    match o
    case None =>
    case Some(t) => EraseVisitType(t);
  }

  lemma {:induction false} EraseVisitTypePath(p: TypePath)
    ensures EraseTypePath(VisitTypePath(p)) == EraseTypePath(p)
  {
    var n := |p.segments|;
    EraseVisitOptType(p.qself);
    forall i | 0 <= i < n
      ensures EraseSegment(VisitTypePath(p).segments[i]) == EraseSegment(p.segments[i])
    {
      if i == n - 1 {
        EraseVisitLastSegment(p.segments[i]);
      } else {
        EraseVisitSegment(p.segments[i]);
      }
    }
    assert EraseTypePath(VisitTypePath(p)).segments == EraseTypePath(p).segments;
  }

  lemma {:induction false} EraseVisitLastSegment(s: PathSegment)
    ensures EraseSegment(VisitLastSegment(s)) == EraseSegment(s)
  {
    match s.arguments
    case AngleBracketed(args) => EraseVisitFilteredArgs(args);
    case _ => EraseVisitArguments(s.arguments);
  }

  lemma {:induction false} EraseVisitSegment(s: PathSegment)
    ensures EraseSegment(VisitSegment(s)) == EraseSegment(s)
  {
    EraseVisitArguments(s.arguments);
  }

  lemma {:induction false} EraseVisitArguments(a: PathArguments)
    ensures EraseArguments(VisitArguments(a)) == EraseArguments(a)
  {
    match a
    case NoArguments =>
    case AngleBracketed(args) => EraseVisitGenericArgs(args);
    case Parenthesized(ins, out) =>
      forall i | 0 <= i < |ins| { EraseVisitType(ins[i]); }
      EraseVisitOptType(out);
      assert EraseArguments(VisitArguments(a)).inputs == EraseArguments(a).inputs;
  }

  lemma {:induction false} EraseVisitGenericArgs(args: seq<GenericArgument>)
    ensures EraseArgs(VisitGenericArgs(args)) == EraseArgs(args)
  {
    if args != [] {
      VisitGenericArgsTail(args);
      EraseVisitGenericArg(args[0]);
      EraseVisitGenericArgs(args[1..]);
      var v := VisitGenericArgs(args);
      assert v[0] == VisitGenericArg(args[0]) && v[1..] == VisitGenericArgs(args[1..]);
    }
  }

  lemma {:induction false} EraseVisitFilteredArgs(args: seq<GenericArgument>)
    ensures EraseArgs(VisitFilteredArgs(args)) == EraseArgs(args)
  {
    if args != [] {
      EraseVisitFilteredArgs(args[1..]);
      var rest := VisitFilteredArgs(args[1..]);
      if Keeps(args[0]) {
        var v := VisitGenericArg(args[0]);
        EraseVisitGenericArg(args[0]);
        assert VisitFilteredArgs(args) == [v] + rest;
        assert ([v] + rest)[0] == v && ([v] + rest)[1..] == rest;
        assert EraseArgs([v] + rest) == [EraseGenericArg(v)] + EraseArgs(rest);
        assert EraseArgs(args) == [EraseGenericArg(args[0])] + EraseArgs(args[1..]);
      } else {
        assert VisitFilteredArgs(args) == rest;
        assert EraseArgs(args) == EraseArgs(args[1..]);
      }
    }
  }

  lemma {:induction false} EraseVisitGenericArg(g: GenericArgument)
    ensures Keeps(VisitGenericArg(g)) == Keeps(g)
    ensures EraseGenericArg(VisitGenericArg(g)) == EraseGenericArg(g)
  {
    match g
    case LifetimeArg(_) =>
    case TypeArg(t) => EraseVisitType(t);
    case ConstArg(_) =>
    case AssocTypeArg(_, t) => EraseVisitType(t);
    case AssocConstArg(_, _) =>
    case ConstraintArg(_, bs) =>
      forall i | 0 <= i < |bs| { EraseVisitBound(bs[i]); }
      assert EraseGenericArg(VisitGenericArg(g)).bounds == EraseGenericArg(g).bounds;
  }

  lemma {:induction false} EraseVisitBound(b: Bound)
    ensures EraseBound(VisitBound(b)) == EraseBound(b)
  {
    match b
    case TraitBound(segs) =>
      forall i | 0 <= i < |segs| { EraseVisitSegment(segs[i]); }
      assert EraseBound(VisitBound(b)).segments == EraseBound(b).segments;
    case LifetimeBound(_) =>
  }

  // ---------------------------------------------------------------------------
  // The type helpers see the same thing before and after the rewrite.
  // ---------------------------------------------------------------------------

  /** Marker detection by name gives the same answer on the rewritten path. */
  lemma VisitKeepsTypeEndsWith(p: TypePath, ident: string)
    ensures TypeEndsWith(VisitTypePath(p), ident) == TypeEndsWith(p, ident)
  {
  }

  /** If no lifetime other than `'static` stands in `args[..k]`, the filter keeps that prefix. */
  lemma {:induction false} FilterLifetimesKeepsPrefix(args: seq<GenericArgument>, k: nat)
    requires k <= |args|
    requires NoLooseLifetimes(args[..k])
    ensures |FilterLifetimes(args)| >= k && FilterLifetimes(args)[..k] == args[..k]
  {
    assert args == args[..k] + args[k..];
    FilterLifetimesAppend(args[..k], args[k..]);
    FilterLifetimesNoLoose(args[..k]);
  }

  /**
   * Extracting after the rewrite: when no lifetime other than `'static`
   * stands at or before `index` in the last segment's `<...>` list, the
   * argument found at `index` is the rewritten form of the one found before.
   */
  lemma ExtractAfterVisit(p: TypePath, index: nat)
    requires LastAngleArgs(p).Some?
    requires forall j :: 0 <= j <= index && j < |LastAngleArgs(p).value| ==> Keeps(LastAngleArgs(p).value[j])
    ensures ExtractTypeArgument(VisitTypePath(p), index) == VisitOptType(ExtractTypeArgument(p, index))
  {
    var args := LastAngleArgs(p).value;
    var r := VisitTypePath(p);
    VisitTypePathShape(p);
    var k := if index < |args| then index + 1 else |args|;
    assert NoLooseLifetimes(args[..k]);
    FilterLifetimesKeepsPrefix(args, k);
    var f := FilterLifetimes(args);
    assert LastAngleArgs(r) == Some(VisitGenericArgs(f));
    if index < |args| {
      assert f[index] == args[index];
    } else {
      FilterLifetimesMembers(args);
      assert f == args[..k] + f[k..];
      assert args[..k] == args;
    }
  }
}
