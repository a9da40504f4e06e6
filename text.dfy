/**
 * The JavaScript string built-ins the core relies on: `String.prototype.split`
 * with a one-character separator, `Array.prototype.join`, `String.prototype.trim`,
 * and the `.map(trim).filter(nonEmpty)` pipeline the admin dialogs build on them.
 */
module Text {
  import opened Optional

  /** The characters `trim` removes: ECMAScript WhiteSpace and LineTerminator. */
  predicate IsWhitespace(c: char)
  {
    || c == ' ' || c == '\t' || c == '\n' || c == '\r'
    || c == '\U{000B}' || c == '\U{000C}' || c == '\U{00A0}' || c == '\U{1680}'
    || ('\U{2000}' <= c <= '\U{200A}')
    || c == '\U{2028}' || c == '\U{2029}' || c == '\U{202F}' || c == '\U{205F}'
    || c == '\U{3000}' || c == '\U{FEFF}'
  }

  /** A string with no whitespace at either end. */
  predicate IsTrimmed(s: string)
  {
    s == [] || (!IsWhitespace(s[0]) && !IsWhitespace(s[|s| - 1]))
  }

  /** The string without its leading whitespace; only whitespace is dropped. */
  function TrimStart(s: string): (r: string)
    ensures |r| <= |s| && r == s[|s| - |r|..]
    ensures forall i :: 0 <= i < |s| - |r| ==> IsWhitespace(s[i])
    ensures forall c :: c in r ==> c in s
    ensures r == [] || !IsWhitespace(r[0])
    ensures (s == [] || !IsWhitespace(s[0])) ==> r == s
  {
    if s != [] && IsWhitespace(s[0]) then
      var r := TrimStart(s[1..]);
      assert forall i :: 1 <= i < |s| ==> s[1..][i - 1] == s[i];
      r
    else s
  }

  /** The string without its trailing whitespace; only whitespace is dropped. */
  function TrimEnd(s: string): (r: string)
    ensures |r| <= |s| && r == s[..|r|]
    ensures forall i :: |r| <= i < |s| ==> IsWhitespace(s[i])
    ensures forall c :: c in r ==> c in s
    ensures r == [] || !IsWhitespace(r[|r| - 1])
    ensures (s == [] || !IsWhitespace(s[|s| - 1])) ==> r == s
  {
    if s != [] && IsWhitespace(s[|s| - 1]) then TrimEnd(s[..|s| - 1]) else s
  }

  /** How many whitespace characters lead `s`. */
  function LeadingWhitespace(s: string): (n: nat)
    ensures n <= |s|
  {
    |s| - |TrimStart(s)|
  }

  /**
   * String trim: the whitespace at both ends is removed and nothing else, so
   * what remains is the slice of `s` between two runs of whitespace.
   */
  function Trim(s: string): (r: string)
    ensures IsTrimmed(r)
    ensures |r| <= |s| && forall c :: c in r ==> c in s
    ensures LeadingWhitespace(s) + |r| <= |s|
    ensures r == s[LeadingWhitespace(s)..LeadingWhitespace(s) + |r|]
    ensures forall i :: 0 <= i < LeadingWhitespace(s) ==> IsWhitespace(s[i])
    ensures forall i :: LeadingWhitespace(s) + |r| <= i < |s| ==> IsWhitespace(s[i])
    ensures IsTrimmed(s) ==> r == s
  {
    var t := TrimStart(s);
    var r := TrimEnd(t);
    assert r != [] ==> r[0] == t[0];
    r
  }

  /** String split on a one-character separator: never empty, no piece holds `sep`. */
  function Split(s: string, sep: char): (r: seq<string>)
    ensures |r| >= 1
    ensures forall i :: 0 <= i < |r| ==> sep !in r[i]
    decreases |s|
  {
    if s == [] then [""]
    else
      var rest := Split(s[1..], sep);
      if s[0] == sep then [""] + rest
      else [[s[0]] + rest[0]] + rest[1..]
  }

  /** Array join: the parts with `sep` between each neighbouring pair. */
  function Join(parts: seq<string>, sep: string): string
    decreases |parts|
  {
    if |parts| == 0 then ""
    else if |parts| == 1 then parts[0]
    else parts[0] + sep + Join(parts[1..], sep)
  }

  lemma JoinCons(p: string, rest: seq<string>, sep: string)
    requires |rest| >= 1
    ensures Join([p] + rest, sep) == p + sep + Join(rest, sep)
  {
    assert ([p] + rest)[1..] == rest;
  }

  /** Joining the pieces of a split with the same separator gives back the input. */
  lemma {:induction false} JoinSplit(s: string, sep: char)
    ensures Join(Split(s, sep), [sep]) == s
    decreases |s|
  {
    if s != [] {
      var rest := Split(s[1..], sep);
      JoinSplit(s[1..], sep);
      if s[0] == sep {
        JoinCons("", rest, [sep]);
      } else if |rest| == 1 {
        assert Split(s, sep) == [[s[0]] + rest[0]];
      } else {
        JoinCons(rest[0], rest[1..], [sep]);
        assert [rest[0]] + rest[1..] == rest;
        JoinCons([s[0]] + rest[0], rest[1..], [sep]);
        assert Split(s, sep) == [[s[0]] + rest[0]] + rest[1..];
      }
    }
  }

  lemma {:induction false} SplitWithoutSeparator(p: string, sep: char)
    requires sep !in p
    ensures Split(p, sep) == [p]
    decreases |p|
  {
    if p != [] {
      SplitWithoutSeparator(p[1..], sep);
      assert [p[0]] + p[1..] == p;
    }
  }

  lemma {:induction false} SplitAfterPiece(p: string, sep: char, t: string)
    requires sep !in p
    ensures Split(p + [sep] + t, sep) == [p] + Split(t, sep)
    decreases |p|
  {
    var s := p + [sep] + t;
    if p == [] {
      assert s[1..] == t;
    } else {
      assert s[1..] == p[1..] + [sep] + t;
      SplitAfterPiece(p[1..], sep, t);
      assert [p[0]] + p[1..] == p;
    }
  }

  /** Splitting a join gives back the pieces, when no piece holds the separator. */
  lemma {:induction false} SplitJoin(parts: seq<string>, sep: char)
    requires |parts| >= 1
    requires forall i :: 0 <= i < |parts| ==> sep !in parts[i]
    ensures Split(Join(parts, [sep]), sep) == parts
    decreases |parts|
  {
    if |parts| == 1 {
      SplitWithoutSeparator(parts[0], sep);
    } else {
      SplitJoin(parts[1..], sep);
      SplitAfterPiece(parts[0], sep, Join(parts[1..], [sep]));
      assert [parts[0]] + parts[1..] == parts;
    }
  }

  /** Every part trimmed, in place and in order. */
  function TrimAll(parts: seq<string>): (r: seq<string>)
    ensures |r| == |parts|
    ensures forall i :: 0 <= i < |r| ==> r[i] == Trim(parts[i])
  {
    seq(|parts|, i requires 0 <= i < |parts| => Trim(parts[i]))
  }

  /** The non-empty parts, in their original order. */
  function DropEmpty(parts: seq<string>): (r: seq<string>)
    ensures |r| <= |parts|
    ensures forall x :: x in r ==> x != "" && x in parts
    ensures forall x :: x in parts && x != "" ==> x in r
    ensures (forall i :: 0 <= i < |parts| ==> parts[i] != "") ==> r == parts
    decreases |parts|
  {
    if parts == [] then []
    else if parts[0] == "" then DropEmpty(parts[1..])
    else [parts[0]] + DropEmpty(parts[1..])
  }

  /** Split on `sep`, trim every piece, then drop the empty ones. */
  function SplitTrimmed(s: string, sep: char): (r: seq<string>)
    ensures forall x :: x in r ==> x != "" && IsTrimmed(x) && sep !in x
  {
    var pieces := Split(s, sep);
    var trimmed := TrimAll(pieces);
    var r := DropEmpty(trimmed);
    forall x | x in r ensures x != "" && IsTrimmed(x) && sep !in x {
      var k :| 0 <= k < |trimmed| && trimmed[k] == x;
      assert x == Trim(pieces[k]);
    }
    r
  }

  /** A well-formed list: non-empty entries, trimmed, none holding `sep`. */
  predicate WellFormedList(parts: seq<string>, sep: char)
  {
    forall i :: 0 <= i < |parts| ==> parts[i] != "" && IsTrimmed(parts[i]) && sep !in parts[i]
  }

  /** Joining a well-formed list and parsing it back gives the same list. */
  lemma SplitTrimmedJoin(parts: seq<string>, sep: char)
    requires WellFormedList(parts, sep)
    ensures SplitTrimmed(Join(parts, [sep]), sep) == parts
  {
    if parts == [] {
      SplitTrimmedEmpty(sep);
    } else {
      SplitJoin(parts, sep);
      TrimAllTrimmed(parts);
      DropEmptyKeepsNonEmpty(parts);
    }
  }

  lemma TrimAllTrimmed(parts: seq<string>)
    requires forall i :: 0 <= i < |parts| ==> IsTrimmed(parts[i])
    ensures TrimAll(parts) == parts
  {
  }

  lemma DropEmptyKeepsNonEmpty(parts: seq<string>)
    requires forall i :: 0 <= i < |parts| ==> parts[i] != ""
    ensures DropEmpty(parts) == parts
  {
  }

  /** A form field as sent: the empty string becomes `null`. */
  function NullIfEmpty(s: string): (r: Option<string>)
    ensures r.None? <==> s == ""
    ensures r.Some? ==> r.value == s
  {
    if s == "" then None else Some(s)
  }

  /** The wildcard list `["*"]` is well formed for any separator other than '*'. */
  lemma StarIsWellFormed(sep: char)
    requires sep != '*'
    ensures WellFormedList(["*"], sep)
  {
    assert !IsWhitespace('*');
    assert IsTrimmed("*");
  }

  /** Blank input parses to the empty list. */
  lemma SplitTrimmedEmpty(sep: char)
    ensures SplitTrimmed("", sep) == []
  {
    assert Split("", sep) == [""];
    assert TrimAll([""]) == [""];
  }

  /** The lone wildcard parses to itself. */
  lemma SplitTrimmedStar(sep: char)
    requires sep != '*'
    ensures SplitTrimmed("*", sep) == ["*"]
  {
    StarIsWellFormed(sep);
    SplitTrimmedJoin(["*"], sep);
    assert Join(["*"], [sep]) == "*";
  }
}
