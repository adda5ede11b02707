# ion-proc type and pattern helpers, modelled in Dafny

`ion-proc` is the procedural-macro crate behind `#[js_fn]`, the attribute that
turns a Rust function into a native function callable from JavaScript.
`ion-proc/src/utils.rs` holds the helpers that work on `syn` syntax trees.
This project models them:

- `type_ends_with` (module `TypeUtils`) detects marker types by the name of a
  path's last segment.
- `extract_type_argument` (module `TypeUtils`) returns the `index`-th type
  argument of a path's last segment.
- `LifetimeRemover` (module `LifetimeRemover`) is a `syn::visit_mut::VisitMut`.
  It drops every non-`'static` lifetime from a type path's last `<...>` list
  and from every reference type. syn's default recursion then walks every
  nested type.
- `format_pat` (module `PatFormat`) recovers the name bound by an identifier
  pattern. It pretty-prints `const <ident>: () = ();` and cuts off the fixed
  text around the name.

Module `Syn` holds the datatypes for the part of syn's tree these helpers
touch: `Type`, `TypePath`, `PathSegment`, `PathArguments`, `GenericArgument`,
`Bound`, `Lifetime` and `Pat`. `Ident` is a subset type of well-formed ASCII
identifiers; a lifetime's name is such an identifier or `_`, so the anonymous
lifetime `'_` is modelled (and removed like any other non-`'static` one).

The lifetime remover is the main part of the model. A loose lifetime is a
lifetime argument, or a reference's lifetime, other than `'static`. The proofs
show:

- after one pass, no reference and no type path's last `<...>` list, at any
  depth, carries a lifetime other than `'static` (`VisitTypeStripped`);
  lifetimes in earlier path segments, in trait-bound paths and in lifetime
  bounds are not the remover's business and survive;
- a second pass changes nothing (`VisitTypeIdempotent`);
- the pass only forgets non-`'static` lifetimes, so every name, type, const,
  bound and `'static` lifetime stays in place (`EraseVisitType`).

Three behaviours of the code are easy to misread from the helpers' names;
the model keeps each of them as the code has it:

- Lifetime arguments are removed only from the last segment of a type path.
  They are not removed from every generic argument list. Earlier segments,
  trait-bound paths and associated-item constraints keep theirs.
- Loose lifetimes are removed, not rewritten to `'static`.
- `extract_type_argument` compares its index with the number of path segments
  (see Findings).

## Model

| member | source | states |
|---|---|---|
| `TypeUtils.TypeEndsWith` | ion-proc/src/utils.rs:13-22 | A path with no segments never matches. Otherwise the result is true exactly when the last segment's identifier equals `ident`. |
| `TypeUtils.TypeEndsWithSuffix` | ion-proc/src/utils.rs:17-21 | The path ends with `ident` exactly when its segments are some prefix followed by one segment named `ident`. Both directions are proved. |
| `TypeUtils.ExtractTypeArgument` | ion-proc/src/utils.rs:24-34 | The result is `None` whenever `index` is at least the segment count, whatever the arguments are. It is `Some` exactly when `index` is below the segment count and the last segment's `<...>` list has a type argument at `index`. That type is the result. A lifetime, const or associated-item argument, an index past the list, or `(...)`/no arguments give `None`. |
| `TypeUtils.ExtractTypeArgumentIntended` | ion-proc/src/utils.rs:24-34 | The corrected helper (see Findings). It is `Some(t)` exactly when the last segment's `<...>` list has the type argument `t` at `index`, for any number of segments. |
| `TypeUtils.ExtractAgreesBelowSegmentCount` | ion-proc/src/utils.rs:25 | Below the segment count the as-written and corrected helpers agree. This includes index 0. |
| `TypeUtils.ExtractSecondArgumentOfSingleSegment` | ion-proc/src/utils.rs:25 | For `Result<T, E>` at index 1 the as-written helper gives `None`. The corrected one gives `Some(E)`. |
| `LifetimeRemover.VisitType` | ion-proc/src/utils.rs:38-59 | The remover: `visit_type_mut` with the two overrides and syn's default walk into every child type. Specified by `VisitTypeStripped`, `VisitTypeFixed`, `VisitTypeIdempotent`, `EraseVisitType` and `VisitReference`. |
| `LifetimeRemover.VisitTypePath` | ion-proc/src/utils.rs:39-51 | The path override: filter the last segment's `<...>` list, then walk the qualified self type and every segment. Specified by `VisitTypePathShape` and `VisitTypePathStripped`. |
| `LifetimeRemover.Keeps` | ion-proc/src/utils.rs:43-46 | The filter's closure: a lifetime argument is kept only when it is `'static`; every other argument is kept. Specified through `FilterLifetimesMembers`. |
| `LifetimeRemover.FilterLifetimes` | ion-proc/src/utils.rs:42-47 | The filter alone. The result is no longer than the list, holds no non-`'static` lifetime, and holds only arguments of the list. |
| `LifetimeRemover.VisitFilteredArgs` | ion-proc/src/utils.rs:42-50 | Filter and walk of the last `<...>` list in one pass. The result is no longer than the list and holds no non-`'static` lifetime; `FilteredArgsIsFilterThenVisit` equates it with filter-then-walk. |
| `LifetimeRemover.AnonymousLifetimeRemoved` | ion-proc/src/utils.rs:44-55 | `'_` is not `'static`: a reference loses it and the filter drops it. |
| `LifetimeRemover.VisitReference` | ion-proc/src/utils.rs:53-58 | In a reference, `Some('static)` is kept and any other lifetime becomes `None`. Mutability is unchanged and the element type is itself rewritten. |
| `LifetimeRemover.FilterLifetimesMembers` | ion-proc/src/utils.rs:42-47 | The filter keeps exactly the arguments that are not non-`'static` lifetimes, so every `'static` lifetime is kept. No loose lifetime is left. |
| `LifetimeRemover.FilterLifetimesAppend` | ion-proc/src/utils.rs:42-47 | The filter distributes over concatenation. Kept arguments therefore keep their relative order. |
| `LifetimeRemover.FilterLifetimesNoLoose` | ion-proc/src/utils.rs:42-47 | A list with no loose lifetime passes through the filter unchanged. |
| `LifetimeRemover.FilteredArgsIsFilterThenVisit` | ion-proc/src/utils.rs:42-50 | The one-pass list rewrite equals the source's two steps: filter first, then the default walk over what is left. |
| `LifetimeRemover.VisitTypePathShape` | ion-proc/src/utils.rs:39-51 | On a type path, segment count and names are kept and the qualified self type is rewritten. Each earlier segment is only walked. A `<...>` list on the last segment becomes the walk of its filtered list; a last segment with `(...)` or no arguments is only walked. |
| `LifetimeRemover.VisitSegmentKeepsLifetimes` | ion-proc/src/utils.rs:50 | Walking a non-last segment's `<...>` list drops nothing and keeps every lifetime argument in its place. |
| `LifetimeRemover.VisitTypeStripped` | ion-proc/src/utils.rs:38-59 | After one pass, no reference and no type path's last `<...>` list, at any depth, carries a non-`'static` lifetime. Lifetimes in earlier segments, in trait-bound paths and in lifetime bounds are left as they were. |
| `LifetimeRemover.VisitTypePathStripped` | ion-proc/src/utils.rs:39-51 | After the path override, the qualified self type and all segments' nested types are stripped, and the last segment's list has no loose lifetime. |
| `LifetimeRemover.VisitTypeFixed` | ion-proc/src/utils.rs:38-59 | The remover leaves a tree that is already stripped unchanged: one whose references and last `<...>` lists hold no loose lifetime, even if earlier segments, trait-bound paths or lifetime bounds still hold lifetimes. |
| `LifetimeRemover.VisitTypeIdempotent` | ion-proc/src/utils.rs:38-59 | Applying the remover twice gives the same tree as applying it once. |
| `LifetimeRemover.EraseVisitType` | ion-proc/src/utils.rs:38-59 | Forget the non-`'static` lifetimes in both the input and the result: the two trees are then equal. So only such lifetimes change. |
| `LifetimeRemover.VisitKeepsTypeEndsWith` | ion-proc/src/utils.rs:13-22 | `type_ends_with` gives the same answer before and after the path is rewritten. |
| `LifetimeRemover.ExtractAfterVisit` | ion-proc/src/utils.rs:24-34 | Suppose no loose lifetime stands at or before `index` in the last `<...>` list. Then extracting after the rewrite gives the rewritten form of what extracting before gave. |
| `PatFormat.Unparse` | ion-proc/src/utils.rs:66-71 | The pretty-printed item `const <ident>: () = ();` followed by a newline. Specified by `TrimUnparse`. |
| `PatFormat.Trim` | ion-proc/src/utils.rs:72-75 | `str::trim`. The result is a contiguous slice of the input, and everything cut from before and after it is whitespace (`IsTrimOf`). The result neither starts nor ends with whitespace, and it is empty when the input is all whitespace. |
| `PatFormat.Drain` | ion-proc/src/utils.rs:73-74 | `String::drain` of `lo..hi`, defined only for an in-range range. The result is shorter by `hi - lo`; what stood before `lo` and after `hi` is kept in place. |
| `PatFormat.TrimStart` | ion-proc/src/utils.rs:72 | Removes the longest prefix made only of whitespace. The result is a suffix of the input and does not start with whitespace. |
| `PatFormat.TrimEnd` | ion-proc/src/utils.rs:75 | Removes the longest suffix made only of whitespace. The result is a prefix of the input and does not end with whitespace. |
| `PatFormat.TrimUnparse` | ion-proc/src/utils.rs:66-72 | Trimming the printed item `const <ident>: () = ();` removes exactly its final newline. |
| `PatFormat.TrimSpacedIdent` | ion-proc/src/utils.rs:75 | After both drains, the text is a space followed by the identifier. Trimming it gives back the identifier. |
| `PatFormat.FormatPat` | ion-proc/src/utils.rs:61-76 | An identifier pattern (`x`, `mut x`, `ref x`, `x @ p`) gives `Some` of its identifier. Every other pattern gives `None`. Both drains are in range, so the slicing never panics. |

## Left out

- `js_fn` in `ion-proc/src/lib.rs` is only plumbing. It parses a token stream, calls `impl_js_fn`, and emits tokens or a compile error.
- The signature classifier and wrapper generator (`ion-proc/src/function.rs`) are not part of this model.
- syn's parser, `quote!` and `prettyplease` are not modelled. `PatFormat.Unparse` assumes the printer returns `const <ident>: () = ();` plus a newline.
- `PatFormat.FormatPat` does not model the panic in `parse2(...).unwrap()`. That panic happens for a name that cannot be a const's name, such as `self`. Every `Ident` is assumed to parse.
- Identifiers are ASCII only. Raw identifiers (`r#...`), spans and hygiene are left out, and identifier equality is string equality.
- Rust's `drain` takes byte offsets. Because identifiers are ASCII here, byte offsets and character offsets agree.
- Expressions are opaque text: const generic arguments, array lengths and associated consts. syn's visitor would also walk any type written inside such an expression; the model does not.
- Some syntax is not in the model: `for<'a>` binders, generic arguments on associated types, `?Sized` modifiers, the `position` field of a qualified self type (the `<T as Trait>::` split; the self type itself is modelled and walked), and the contents of macro or verbatim types.
- The remover updates the tree in place through `&mut`. The model returns the rewritten tree as a value instead. An exclusive `&mut` borrow rules out aliasing, so no behaviour is lost.

## Findings

| source | as written | input that shows it | evidently intended | confidence | as-written member | corrected member |
|---|---|---|---|---|---|---|
| ion-proc/src/utils.rs:25 | The guard `segments.len() > index` compares the argument index with the number of path segments | Path `Result<T, E>` (one segment) with index 1 gives `None`, although argument 1 is the type `E` | Return the `index`-th argument of the last segment's `<...>` list when it is a type, whatever the segment count (the `nth` lookup already handles out-of-range) | medium, not executed; callers that pass index 0 see no difference | `TypeUtils.ExtractSecondArgumentOfSingleSegment` | `TypeUtils.ExtractTypeArgumentIntended` |

The rest of the model keeps the as-written `TypeUtils.ExtractTypeArgument`, because it describes what the crate does today. `TypeUtils.ExtractAgreesBelowSegmentCount` shows the two helpers differ only when the index is at least the segment count.
