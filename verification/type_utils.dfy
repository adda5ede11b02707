/**
 * The two read-only type helpers of ion-proc/src/utils.rs: name-based
 * detection of marker types (`type_ends_with`) and recovery of a generic
 * argument by position (`extract_type_argument`).
 */
module TypeUtils {
  import opened Syn

  /**
   * `type_ends_with`: does the path's last segment carry the identifier
   * `ident`? Only the name is compared, never the arguments or the qualified
   * self type, so `a::Opt<T>` and `Opt` both end with "Opt".
   */
  function TypeEndsWith(ty: TypePath, ident: string): (r: bool)
    ensures r ==> |ty.segments| > 0
    ensures |ty.segments| > 0 ==> (r <==> ty.segments[|ty.segments| - 1].ident == ident)
  {
    if |ty.segments| > 0 then Last(ty.segments).ident == ident else false
  }

  /**
   * An independent reading of the name: the path "ends with" `ident` exactly
   * when its segments are some prefix followed by one segment named `ident`.
   */
  lemma {:induction false} TypeEndsWithSuffix(ty: TypePath, ident: string)
    ensures TypeEndsWith(ty, ident) <==>
              exists pre: seq<PathSegment>, last: PathSegment ::
                ty.segments == pre + [last] && last.ident == ident
  {
    var segs := ty.segments;
    if TypeEndsWith(ty, ident) {
      var pre, last := segs[..|segs| - 1], segs[|segs| - 1];
      assert segs == pre + [last];
    }
    if exists pre: seq<PathSegment>, last: PathSegment :: segs == pre + [last] && last.ident == ident {
      var pre: seq<PathSegment>, last: PathSegment :| segs == pre + [last] && last.ident == ident;
      assert segs[|segs| - 1] == last;
    }
  }

  /** The angle-bracketed argument list of the path's last segment, if it has one. */
  function LastAngleArgs(ty: TypePath): (r: Option<seq<GenericArgument>>)
    ensures r.Some? <==> |ty.segments| > 0 && ty.segments[|ty.segments| - 1].arguments.AngleBracketed?
  {
    if |ty.segments| == 0 then None
    else match Last(ty.segments).arguments
      case AngleBracketed(args) => Some(args)
      case _ => None
  }

  /** Holds when the last segment's `<...>` list has a type argument at `index`. */
  predicate HasTypeArgAt(ty: TypePath, index: nat) {
    && LastAngleArgs(ty).Some?
    && index < |LastAngleArgs(ty).value|
    && LastAngleArgs(ty).value[index].TypeArg?
  }

  /**
   * `extract_type_argument`, as written: the guard compares `index` with the
   * number of path SEGMENTS, not with the number of arguments, before taking
   * the `index`-th argument of the last segment's `<...>` list. Only a type
   * argument is returned; a lifetime, const or associated-item argument at
   * that position, a missing position, or `(...)`/no arguments give `None`.
   */
  function ExtractTypeArgument(ty: TypePath, index: nat): (r: Option<Type>)
    ensures |ty.segments| <= index ==> r == None
    ensures r.Some? <==> index < |ty.segments| && HasTypeArgAt(ty, index)
    ensures r.Some? ==> TypeArg(r.value) == LastAngleArgs(ty).value[index]
  {
    if |ty.segments| > 0 && |ty.segments| > index then
      match Last(ty.segments).arguments
      case AngleBracketed(args) =>
        if index < |args| && args[index].TypeArg? then Some(args[index].ty) else None
      case _ => None
    else
      None
  }

  /**
   * The evidently intended `extract_type_argument`: the `index`-th argument of
   * the last segment's `<...>` list when it is a type, however many segments
   * the path has.
   */
  function ExtractTypeArgumentIntended(ty: TypePath, index: nat): (r: Option<Type>)
    ensures r.Some? <==> HasTypeArgAt(ty, index)
    ensures r.Some? ==> TypeArg(r.value) == LastAngleArgs(ty).value[index]
  {
    match LastAngleArgs(ty)
    case Some(args) =>
      if index < |args| && args[index].TypeArg? then Some(args[index].ty) else None
    case None => None
  }

  /**
   * The two agree whenever the index is below the segment count, in
   * particular at index 0, the position used for `Option<T>`-like markers.
   */
  lemma ExtractAgreesBelowSegmentCount(ty: TypePath, index: nat)
    requires index < |ty.segments|
    ensures ExtractTypeArgument(ty, index) == ExtractTypeArgumentIntended(ty, index)
  {
  }

  /**
   * The guard's effect: for the single-segment path `Result<T, E>` the as-written
   * helper cannot return the error type `E` at index 1, which the corrected one does.
   */
  lemma ExtractSecondArgumentOfSingleSegment(t: Type, e: Type)
    ensures var ty := TypePath(None, [PathSegment("Result", AngleBracketed([TypeArg(t), TypeArg(e)]))]);
            && ExtractTypeArgument(ty, 1) == None
            && ExtractTypeArgumentIntended(ty, 1) == Some(e)
  {
  }
}
