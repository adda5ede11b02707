/**
 * `format_pat` (ion-proc/src/utils.rs:61-76): the name bound by a parameter
 * pattern, for diagnostics. An identifier pattern is turned back into text by
 * pretty-printing the item `const <ident>: () = ();` and cutting the fixed
 * prefix `const` and suffix `: () = ();` off it; any other pattern has no name.
 */
module PatFormat {
  import opened Syn

  /** `char::is_whitespace`: the characters with Unicode's White_Space property. */
  predicate IsWhitespace(c: char) {
    || '\U{9}' <= c <= '\U{D}'
    || c == ' ' || c == '\U{85}' || c == '\U{A0}' || c == '\U{1680}'
    || '\U{2000}' <= c <= '\U{200A}'
    || c == '\U{2028}' || c == '\U{2029}' || c == '\U{202F}' || c == '\U{205F}' || c == '\U{3000}'
  }

  /** `str::trim_start`: drop the longest all-whitespace prefix. */
  function TrimStart(s: string): (r: string)
    ensures |r| <= |s| && r == s[|s| - |r|..]
    ensures forall i :: 0 <= i < |s| - |r| ==> IsWhitespace(s[i])
    ensures r != [] ==> !IsWhitespace(r[0])
  {
    if s != [] && IsWhitespace(s[0]) then TrimStart(s[1..]) else s
  }

  /** `str::trim_end`: drop the longest all-whitespace suffix. */
  function TrimEnd(s: string): (r: string)
    ensures |r| <= |s| && r == s[..|r|]
    ensures forall i :: |r| <= i < |s| ==> IsWhitespace(s[i])
    ensures r != [] ==> !IsWhitespace(r[|r| - 1])
  {
    if s != [] && IsWhitespace(s[|s| - 1]) then TrimEnd(s[..|s| - 1]) else s
  }

  /**
   * `r` is the slice of `s` that starts at `a`, and everything before and after
   * that slice is whitespace.
   */
  predicate IsTrimOf(s: string, r: string, a: nat) {
    && a + |r| <= |s|
    && r == s[a..a + |r|]
    && (forall i :: 0 <= i < a ==> IsWhitespace(s[i]))
    && (forall i :: a + |r| <= i < |s| ==> IsWhitespace(s[i]))
  }

  /** `str::trim`: drop leading and trailing whitespace. */
  function Trim(s: string): (r: string)
    ensures |r| <= |s|
    ensures exists a: nat :: IsTrimOf(s, r, a)
    ensures r != [] ==> !IsWhitespace(r[0]) && !IsWhitespace(r[|r| - 1])
    ensures (forall i :: 0 <= i < |s| ==> IsWhitespace(s[i])) ==> r == []
  {
    var t := TrimStart(s);
    var r := TrimEnd(t);
    assert IsTrimOf(s, r, |s| - |t|);
    r
  }

  /**
   * `prettyplease::unparse` of the file holding the one item
   * `const <ident>: () = ();`, taken to be that item on one line.
   */
  function Unparse(ident: Ident): string
  {
    "const " + ident + ": () = ();\n"
  }

  /** `String::drain(lo..hi)` for its effect on the string; it panics on a range out of bounds. */
  function Drain(s: string, lo: nat, hi: nat): (r: string)
    requires lo <= hi <= |s|
    ensures |r| == |s| - (hi - lo)
    ensures r[..lo] == s[..lo] && r[lo..] == s[hi..]
  {
    s[..lo] + s[hi..]
  }

  /** No character of an identifier is whitespace. */
  lemma IdentHasNoWhitespace(ident: Ident)
    ensures forall i :: 0 <= i < |ident| ==> !IsWhitespace(ident[i])
  {
  }

  lemma TrimStartNoLeading(s: string)
    requires s != [] && !IsWhitespace(s[0])
    ensures TrimStart(s) == s
  {
  }

  lemma TrimEndNoTrailing(s: string)
    requires s != [] && !IsWhitespace(s[|s| - 1])
    ensures TrimEnd(s) == s
  {
  }

  /** Trimming the printed item removes exactly the final newline. */
  lemma TrimUnparse(ident: Ident)
    ensures Trim(Unparse(ident)) == "const " + ident + ": () = ();"
  {
    var item := "const " + ident + ": () = ();";
    var printed := Unparse(ident);
    assert printed == item + "\n";
    assert printed[0] == 'c';
    TrimStartNoLeading(printed);
    assert printed[|printed| - 1] == '\n';
    assert printed[..|printed| - 1] == item;
    assert TrimEnd(printed) == TrimEnd(item);
    assert item[|item| - 1] == ';';
    TrimEndNoTrailing(item);
  }

  /** Trimming a space-prefixed identifier gives back the identifier. */
  lemma TrimSpacedIdent(ident: Ident)
    ensures Trim(" " + ident) == ident
  {
    IdentHasNoWhitespace(ident);
    assert (" " + ident)[1..] == ident;
    TrimStartNoLeading(ident);
    TrimEndNoTrailing(ident);
  }

  /**
   * `format_pat`: an identifier pattern (`x`, `mut x`, `ref x`, `x @ p`) gives
   * its identifier back; every other pattern gives `None`. The two drains are
   * always in range, so the string slicing never panics.
   */
  method FormatPat(pat: Pat) returns (name: Option<string>)
    ensures pat.PatIdent? ==> name == Some(pat.ident)
    ensures !pat.PatIdent? ==> name == None
  {
    var ident: Ident;
    match pat {
      case PatIdent(_, _, id, _) => ident := id;
      case _ => return None;
    }
    TrimUnparse(ident);
    var text := Trim(Unparse(ident));
    ghost var item := "const " + ident;
    assert text == item + ": () = ();";
    assert text[..|text| - 10] == item;
    text := Drain(text, |text| - 10, |text|);
    assert text == item;
    assert item[5..] == " " + ident;
    text := Drain(text, 0, 5);
    assert text == " " + ident;
    TrimSpacedIdent(ident);
    name := Some(Trim(text));
  }
}
