/** The JavaScript string built-ins the components rely on: `String.prototype.trim`,
    `String.prototype.split` with a one-character separator, `Array.prototype.join`
    with a one-character separator, the `length` of a string, and the truthiness
    of an optional string. A string is a sequence of Unicode scalar values, one
    `char` each; `length` counts UTF-16 code units, two for a character outside
    the Basic Multilingual Plane. */
module JsStrings {
  import opened Wrappers

  /** The code points `trim` removes: ECMAScript's WhiteSpace and LineTerminator. */
  predicate IsWhitespace(c: char) {
    || c == '\t' || c == '\n' || c == '\U{000B}' || c == '\U{000C}' || c == '\r' || c == ' '
    || c == '\U{00A0}' || c == '\U{1680}' || ('\U{2000}' <= c <= '\U{200A}')
    || c == '\U{2028}' || c == '\U{2029}' || c == '\U{202F}' || c == '\U{205F}'
    || c == '\U{3000}' || c == '\U{FEFF}'
  }

  /** Every character of `s` is whitespace (the empty string included). */
  predicate IsBlank(s: string) {
    forall i :: 0 <= i < |s| ==> IsWhitespace(s[i])
  }

  /** A string is truthy when it is present and not empty. */
  predicate Truthy(s: Option<string>)
    ensures Truthy(s) <==> s.Some? && |s.value| > 0
  {
    s.Some? && s.value != ""
  }

  /** `String.prototype.length`: the number of UTF-16 code units, one for a
      character below U+10000 and a surrogate pair for any other. */
  function Utf16Length(s: string): (n: nat)
    ensures |s| <= n <= 2 * |s|
  {
    if s == [] then 0 else (if s[0] as int < 0x10000 then 1 else 2) + Utf16Length(s[1..])
  }

  /** `length` counts characters exactly when every character is in the Basic
      Multilingual Plane. */
  lemma {:induction false} Utf16LengthBmp(s: string)
    ensures Utf16Length(s) == |s| <==> forall i :: 0 <= i < |s| ==> s[i] as int < 0x10000
  {
    if s != [] {
      Utf16LengthBmp(s[1..]);
      assert forall i :: 1 <= i < |s| ==> s[i] == s[1..][i - 1];
    }
  }

  /** Removes the leading whitespace. */
  function TrimStart(s: string): string {
    if s != [] && IsWhitespace(s[0]) then TrimStart(s[1..]) else s
  }

  /** What `TrimStart` removes is a blank prefix, and what it keeps does not
      start with whitespace. */
  lemma {:induction false} TrimStartSlice(s: string)
    ensures |TrimStart(s)| <= |s| && TrimStart(s) == s[|s| - |TrimStart(s)|..]
    ensures IsBlank(s[..|s| - |TrimStart(s)|])
    ensures TrimStart(s) != [] ==> !IsWhitespace(TrimStart(s)[0])
  {
    if s != [] && IsWhitespace(s[0]) {
      var t := s[1..];
      TrimStartSlice(t);
      assert TrimStart(s) == TrimStart(t);
      var k := |s| - |TrimStart(s)|;
      assert t[k - 1..] == s[k..];
      forall i | 0 <= i < k ensures IsWhitespace(s[..k][i]) {
        if i > 0 {
          assert s[..k][i] == t[..k - 1][i - 1];
        }
      }
    }
  }

  /** Removes the trailing whitespace. */
  function TrimEnd(s: string): string {
    if s != [] && IsWhitespace(s[|s| - 1]) then TrimEnd(s[..|s| - 1]) else s
  }

  /** What `TrimEnd` removes is a blank suffix, and what it keeps does not end
      with whitespace. */
  lemma {:induction false} TrimEndSlice(s: string)
    ensures |TrimEnd(s)| <= |s| && TrimEnd(s) == s[..|TrimEnd(s)|]
    ensures IsBlank(s[|TrimEnd(s)|..])
    ensures TrimEnd(s) != [] ==> !IsWhitespace(TrimEnd(s)[|TrimEnd(s)| - 1])
  {
    if s != [] && IsWhitespace(s[|s| - 1]) {
      var t := s[..|s| - 1];
      TrimEndSlice(t);
      assert TrimEnd(s) == TrimEnd(t);
      var k := |TrimEnd(s)|;
      assert t[..k] == s[..k];
      forall i | 0 <= i < |s| - k ensures IsWhitespace(s[k..][i]) {
        if k + i < |s| - 1 {
          assert s[k..][i] == t[k..][i];
        }
      }
    }
  }

  /** `s.trim()`: the empty string exactly when `s` is blank, and otherwise a
      slice of `s` that neither starts nor ends with whitespace. */
  function Trim(s: string): (r: string)
    ensures r == "" <==> IsBlank(s)
    ensures r != "" ==> !IsWhitespace(r[0]) && !IsWhitespace(r[|r| - 1])
  {
    TrimShape(s);
    TrimEnd(TrimStart(s))
  }

  /** The facts behind Trim's contract: trimming both ends leaves nothing exactly
      when every character was whitespace, and what is left is bounded by
      non-whitespace. */
  lemma TrimShape(s: string)
    ensures TrimEnd(TrimStart(s)) == "" <==> IsBlank(s)
    ensures TrimEnd(TrimStart(s)) != "" ==>
      !IsWhitespace(TrimEnd(TrimStart(s))[0]) && !IsWhitespace(TrimEnd(TrimStart(s))[|TrimEnd(TrimStart(s))| - 1])
  {
    var t := TrimStart(s);
    var r := TrimEnd(t);
    TrimStartSlice(s);
    TrimEndSlice(t);
    if r == "" {
      assert t == "";
      assert s[..|s|] == s;
    } else {
      assert !IsWhitespace(s[|s| - |t|]);
      assert r[0] == t[0];
    }
  }

  /** Trimming adds no character: every character of the trim occurs in `s`. */
  lemma TrimAddsNothing(s: string, c: char)
    ensures c in Trim(s) ==> c in s
  {
    var t := TrimStart(s);
    var r := TrimEnd(t);
    TrimStartSlice(s);
    TrimEndSlice(t);
    if c in r {
      var i :| 0 <= i < |r| && r[i] == c;
      assert t[i] == c;
      assert s[|s| - |t| + i] == c;
    }
  }

  /** The number of characters in all the items together. */
  function TotalLength(items: seq<string>): nat {
    if items == [] then 0 else |items[0]| + TotalLength(items[1..])
  }

  /** `items.join(sep)`: the items in order with one separator between
      neighbours, so a non-empty list adds exactly one separator fewer than it
      has items. */
  function Join(items: seq<string>, sep: char): (r: string)
    ensures items == [] ==> r == ""
    ensures items != [] ==> |r| == TotalLength(items) + |items| - 1
  {
    if items == [] then ""
    else if |items| == 1 then items[0]
    else items[0] + [sep] + Join(items[1..], sep)
  }

  /** `s.split(sep)`: the maximal separator-free pieces of `s`, in order; joining
      them again gives `s` back. */
  function Split(s: string, sep: char): (r: seq<string>)
    ensures |r| >= 1
    ensures forall i :: 0 <= i < |r| ==> sep !in r[i]
    decreases |s|
  {
    if s == [] then [""]
    else
      var rest := Split(s[1..], sep);
      if s[0] == sep then [""] + rest
      else [[s[0]] + rest[0]] + rest[1..]
  }

  /** Joining the pieces of a split gives the string back. */
  lemma {:induction false} JoinSplit(s: string, sep: char)
    ensures Join(Split(s, sep), sep) == s
    decreases |s|
  {
    if s != [] {
      var rest := Split(s[1..], sep);
      JoinSplit(s[1..], sep);
      assert s == [s[0]] + s[1..];
      if s[0] != sep {
        var r := [[s[0]] + rest[0]] + rest[1..];
        assert r[1..] == rest[1..];
        if |rest| > 1 {
          assert rest == [rest[0]] + rest[1..];
          assert Join(rest, sep) == rest[0] + [sep] + Join(rest[1..], sep);
        }
      }
    }
  }

  /** Splitting a string that starts with a separator-free piece `x`. */
  lemma {:induction false} SplitPrefix(x: string, s: string, sep: char)
    requires sep !in x
    ensures Split(x + s, sep) == [x + Split(s, sep)[0]] + Split(s, sep)[1..]
    decreases |x|
  {
    if x != [] {
      var tail := Split(s, sep);
      SplitPrefix(x[1..], s, sep);
      assert (x + s)[0] == x[0] && x[0] != sep;
      assert (x + s)[1..] == x[1..] + s;
      var rest := Split(x[1..] + s, sep);
      assert rest == [x[1..] + tail[0]] + tail[1..];
      assert rest[0] == x[1..] + tail[0] && rest[1..] == tail[1..];
      assert Split(x + s, sep) == [[x[0]] + rest[0]] + rest[1..];
      assert [x[0]] + (x[1..] + tail[0]) == x + tail[0];
    } else {
      var tail := Split(s, sep);
      assert x + s == s && x + tail[0] == tail[0];
      assert tail == [tail[0]] + tail[1..];
    }
  }

  /** Splitting undoes joining when no item contains the separator. Without
      items the join is "" and the split is [""], so at least one item is needed. */
  lemma {:induction false} SplitJoin(items: seq<string>, sep: char)
    requires |items| >= 1
    requires forall i :: 0 <= i < |items| ==> sep !in items[i]
    ensures Split(Join(items, sep), sep) == items
  {
    if |items| == 1 {
      SplitPrefix(items[0], "", sep);
      assert items[0] + "" == items[0];
    } else {
      var rest := Join(items[1..], sep);
      SplitJoin(items[1..], sep);
      SplitPrefix(items[0], [sep] + rest, sep);
      assert ([sep] + rest)[0] == sep && ([sep] + rest)[1..] == rest;
      var t := Split([sep] + rest, sep);
      assert t == [""] + items[1..];
      assert t[0] == "" && t[1..] == items[1..];
      assert Join(items, sep) == items[0] + ([sep] + rest);
      assert items[0] + t[0] == items[0];
      assert items == [items[0]] + items[1..];
    }
  }

  /** A separator at the end of the text adds one empty piece after the others. */
  lemma {:induction false} SplitTrailingSeparator(s: string, sep: char)
    ensures Split(s + [sep], sep) == Split(s, sep) + [""]
    decreases |s|
  {
    if s == [] {
      assert [sep][1..] == [];
    } else {
      SplitTrailingSeparator(s[1..], sep);
      assert (s + [sep])[0] == s[0];
      assert (s + [sep])[1..] == s[1..] + [sep];
      var rest := Split(s[1..], sep);
      var rest' := Split(s[1..] + [sep], sep);
      assert rest'[0] == rest[0] && rest'[1..] == rest[1..] + [""];
    }
  }
}
