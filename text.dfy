/** The JavaScript string operations the services rely on: `startsWith`,
    `split` on one character, `trim`, `toLowerCase`, ILIKE-style search and
    the ordering of `YYYY-MM-DD` strings. */
module Text {
  import opened Common

  predicate StartsWith(s: string, prefix: string) {
    |prefix| <= |s| && s[..|prefix|] == prefix
  }

  // ---------------------------------------------------------------------------
  // String.prototype.split with a one-character separator

  /** `s.split(sep)`: the pieces between separators, always at least one. */
  function Split(s: string, sep: char): (parts: seq<string>)
    ensures |parts| >= 1
    ensures forall i :: 0 <= i < |parts| ==> sep !in parts[i]
  {
    if |s| == 0 then [""]
    else
      var rest := Split(s[1..], sep);
      if s[0] == sep then [""] + rest
      else [[s[0]] + rest[0]] + rest[1..]
  }

  /** `parts.join(sep)`, the inverse of Split. */
  function Join(parts: seq<string>, sep: char): string
    requires |parts| >= 1
  {
    if |parts| == 1 then parts[0] else parts[0] + [sep] + Join(parts[1..], sep)
  }

  /** Indexing the result of a split: `undefined` past the last piece. */
  function Field(s: string, sep: char, i: nat): (f: Option<string>)
    ensures f.Some? <==> i < |Split(s, sep)|
    ensures f.Some? ==> sep !in f.value
  {
    var parts := Split(s, sep);
    if i < |parts| then Some(parts[i]) else None
  }

  /** Joining the pieces of a split gives back the string. */
  lemma {:induction false} JoinSplit(s: string, sep: char)
    ensures Join(Split(s, sep), sep) == s
  {
    if |s| > 0 {
      var rest := Split(s[1..], sep);
      JoinSplit(s[1..], sep);
      if s[0] == sep {
        assert Split(s, sep) == [""] + rest;
      } else if |rest| > 1 {
        assert Split(s, sep) == [[s[0]] + rest[0]] + rest[1..];
        assert Join(rest, sep) == rest[0] + [sep] + Join(rest[1..], sep);
        assert [s[0]] + s[1..] == s;
      } else {
        assert [s[0]] + s[1..] == s;
      }
    }
  }

  /** A piece without separators, followed by a separator, splits off as one field. */
  lemma {:induction false} SplitAfterPiece(p: string, sep: char, t: string)
    requires sep !in p
    ensures Split(p + [sep] + t, sep) == [p] + Split(t, sep)
  {
    if |p| > 0 {
      SplitAfterPiece(p[1..], sep, t);
      assert (p + [sep] + t)[1..] == p[1..] + [sep] + t;
      assert p[0] != sep && [p[0]] + p[1..] == p;
    } else {
      assert p + [sep] + t == [sep] + t;
      assert ([sep] + t)[1..] == t;
    }
  }

  /** A string without separators splits into itself. */
  lemma {:induction false} SplitNoSeparator(p: string, sep: char)
    requires sep !in p
    ensures Split(p, sep) == [p]
  {
    if |p| > 0 {
      SplitNoSeparator(p[1..], sep);
      assert [p[0]] + p[1..] == p;
    }
  }

  /** Splitting a join of separator-free pieces gives back the pieces. */
  lemma {:induction false} SplitJoin(parts: seq<string>, sep: char)
    requires |parts| >= 1
    requires forall i :: 0 <= i < |parts| ==> sep !in parts[i]
    ensures Split(Join(parts, sep), sep) == parts
  {
    if |parts| == 1 {
      SplitNoSeparator(parts[0], sep);
    } else {
      SplitJoin(parts[1..], sep);
      SplitAfterPiece(parts[0], sep, Join(parts[1..], sep));
      assert [parts[0]] + parts[1..] == parts;
    }
  }

  /** After a separator-free prefix and a separator, field 1 is the first piece of the rest. */
  lemma FieldAfterPrefix(p: string, sep: char, t: string)
    requires sep !in p
    ensures Field(p + [sep] + t, sep, 0) == Some(p)
    ensures Field(p + [sep] + t, sep, 1) == Some(Split(t, sep)[0])
  {
    SplitAfterPiece(p, sep, t);
  }

  // ---------------------------------------------------------------------------
  // The text PostgreSQL's uuid type accepts

  predicate IsHexDigit(c: char) {
    '0' <= c <= '9' || 'a' <= c <= 'f' || 'A' <= c <= 'F'
  }

  /** Scans the text of a uuid without its braces, `digits` hex digits having
      been read: 32 hex digits in all, and after each group of four but the
      last, optionally one hyphen, which must be followed by a digit. */
  predicate UuidScan(b: string, digits: nat)
    decreases |b|
  {
    if b == [] then digits == 32
    else if IsHexDigit(b[0]) then digits < 32 && UuidScan(b[1..], digits + 1)
    else b[0] == '-' && 0 < digits < 32 && digits % 4 == 0 && |b| > 1 && IsHexDigit(b[1]) && UuidScan(b[1..], digits)
  }

  /** Text a uuid column can be compared with: 32 hex digits, optionally
      grouped by hyphens, optionally inside one pair of braces. Any other
      text makes PostgreSQL raise `invalid input syntax for type uuid`. */
  predicate IsUuid(s: string) {
    UuidScan(Unbraced(s), 0)
  }

  /** The text inside one pair of braces around all of `s`, or `s` itself. */
  function Unbraced(s: string): (b: string)
    ensures |b| <= |s|
  {
    if |s| >= 2 && s[0] == '{' && s[|s| - 1] == '}' then s[1..|s| - 1] else s
  }

  /** The value a uuid text denotes, as its hex digits in lower case without
      braces or hyphens. PostgreSQL compares uuids by value, so every spelling
      of one uuid (upper case, braces, fewer hyphens) finds the same row. */
  function UuidValue(s: string): (r: string)
    ensures |r| <= |s|
    decreases |s|
  {
    if s == [] then []
    else if s[0] == '-' || s[0] == '{' || s[0] == '}' then UuidValue(s[1..])
    else [LowerChar(s[0])] + UuidValue(s[1..])
  }

  /** Two texts that denote the same uuid. */
  predicate SameUuid(a: string, b: string) {
    UuidValue(a) == UuidValue(b)
  }

  /** A uuid and its braced spelling are the same uuid. */
  lemma BracedSameUuid(s: string)
    requires UuidScan(s, 0)
    ensures IsUuid("{" + s + "}") && SameUuid("{" + s + "}", s)
  {
    var t := "{" + s + "}";
    assert t[1..|t| - 1] == s;
    assert t == ['{'] + (s + ['}']);
    assert t[1..] == s + ['}'];
    UuidValueAppendBrace(s);
  }

  lemma {:induction false} UuidValueAppendBrace(s: string)
    ensures UuidValue(s + ['}']) == UuidValue(s)
    decreases |s|
  {
    if s == [] {
      assert ([] + ['}'])[1..] == [];
    } else {
      assert (s + ['}'])[1..] == s[1..] + ['}'];
      UuidValueAppendBrace(s[1..]);
    }
  }

  /** Case does not change a uuid: a spelling that differs from `s` only in
      the case of its letters is the same uuid. */
  lemma {:induction false} CaseSameUuid(s: string, u: string)
    requires |u| == |s|
    requires forall i :: 0 <= i < |s| ==> LowerChar(u[i]) == LowerChar(s[i]) && (IsHexDigit(s[i]) || s[i] == '-')
    ensures SameUuid(u, s)
    decreases |s|
  {
    if s != [] {
      CaseSameUuid(s[1..], u[1..]);
    }
  }

  lemma {:induction false} UuidScanLength(b: string, digits: nat)
    requires UuidScan(b, digits)
    ensures digits + |b| >= 32
    decreases |b|
  {
    if b != [] {
      UuidScanLength(b[1..], if IsHexDigit(b[0]) then digits + 1 else digits);
    }
  }

  /** A uuid has at least its 32 digits, so the empty string, a class name
      such as "10A" or a word such as "abc" is never one. */
  lemma UuidLength(s: string)
    requires IsUuid(s)
    ensures |s| >= 32
  {
    UuidScanLength(Unbraced(s), 0);
  }

  // ---------------------------------------------------------------------------
  // String.prototype.trim

  /** The characters ECMAScript's `trim` removes: WhiteSpace and LineTerminator. */
  predicate IsWhitespace(c: char) {
    var n := c as int;
    n == 0x09 || n == 0x0A || n == 0x0B || n == 0x0C || n == 0x0D || n == 0x20
    || n == 0xA0 || n == 0x1680 || (0x2000 <= n <= 0x200A) || n == 0x2028
    || n == 0x2029 || n == 0x202F || n == 0x205F || n == 0x3000 || n == 0xFEFF
  }

  function TrimStart(s: string): (r: string)
    ensures |r| <= |s| && r == s[|s| - |r|..]
    ensures r == [] || !IsWhitespace(r[0])
    ensures forall i :: 0 <= i < |s| - |r| ==> IsWhitespace(s[i])
  {
    if |s| > 0 && IsWhitespace(s[0]) then TrimStart(s[1..]) else s
  }

  function TrimEnd(s: string): (r: string)
    ensures |r| <= |s| && r == s[..|r|]
    ensures r == [] || !IsWhitespace(r[|r| - 1])
    ensures forall i :: |r| <= i < |s| ==> IsWhitespace(s[i])
  {
    if |s| > 0 && IsWhitespace(s[|s| - 1]) then TrimEnd(s[..|s| - 1]) else s
  }

  lemma SliceOfSuffix(s: string, i: nat, n: nat)
    requires i + n <= |s|
    ensures s[i..][..n] == s[i..i + n]
  {
  }

  /** What TrimEnd(TrimStart(s)) keeps is a slice of `s` with only whitespace around it. */
  lemma {:induction false} TrimBothEnds(s: string)
    ensures exists i, j :: (0 <= i <= j <= |s| && TrimEnd(TrimStart(s)) == s[i..j]
      && forall k :: 0 <= k < i || j <= k < |s| ==> IsWhitespace(s[k]))
  {
    var t := TrimStart(s);
    var r := TrimEnd(t);
    var i := |s| - |t|;
    var j := i + |r|;
    assert t == s[i..] && r == t[..|r|];
    SliceOfSuffix(s, i, |r|);
    forall k | j <= k < |s|
      ensures IsWhitespace(s[k])
    {
      assert s[k] == t[k - i];
    }
    assert forall k :: 0 <= k < i ==> IsWhitespace(s[k]);
    assert 0 <= i <= j <= |s| && TrimEnd(TrimStart(s)) == s[i..j]
      && forall k :: 0 <= k < i || j <= k < |s| ==> IsWhitespace(s[k]);
  }

  /** `s.trim()`: a middle piece of `s` that neither starts nor ends with
      whitespace, everything cut away being whitespace. */
  function Trim(s: string): (r: string)
    ensures |r| <= |s|
    ensures r == [] || (!IsWhitespace(r[0]) && !IsWhitespace(r[|r| - 1]))
    ensures exists i, j :: (0 <= i <= j <= |s| && r == s[i..j]
      && forall k :: 0 <= k < i || j <= k < |s| ==> IsWhitespace(s[k]))
  {
    TrimBothEnds(s);
    TrimEnd(TrimStart(s))
  }

  /** Only whitespace trims to the empty string. */
  lemma {:induction false} TrimEmptyIff(s: string)
    ensures Trim(s) == "" <==> forall i :: 0 <= i < |s| ==> IsWhitespace(s[i])
  {
    var t := TrimStart(s);
    if TrimEnd(t) == "" {
      // a non-empty TrimStart result would start with a non-whitespace character
      assert t == [];
    }
  }

  /** Trimming twice is trimming once. */
  lemma TrimIdempotent(s: string)
    ensures Trim(Trim(s)) == Trim(s)
  {
    var r := Trim(s);
    assert TrimStart(r) == r;
  }

  // ---------------------------------------------------------------------------
  // Case and search

  function LowerChar(c: char): char {
    if 'A' <= c <= 'Z' then (c as int + 32) as char else c
  }

  /** `toLowerCase` on the ASCII letters. */
  function Lower(s: string): (r: string)
    ensures |r| == |s|
    ensures forall i :: 0 <= i < |s| ==> r[i] == LowerChar(s[i])
  {
    seq(|s|, i requires 0 <= i < |s| => LowerChar(s[i]))
  }

  /** `needle` occurs somewhere in `hay`. */
  predicate IsInfix(needle: string, hay: string)
    decreases |hay|
  {
    StartsWith(hay, needle) || (|hay| > 0 && IsInfix(needle, hay[1..]))
  }

  /** `hay ILIKE '%needle%'`, read as a case-insensitive substring test. */
  predicate ILike(hay: string, needle: string) {
    IsInfix(Lower(needle), Lower(hay))
  }

  /** An occurrence at a position is an infix. */
  lemma {:induction false} InfixAt(needle: string, hay: string, k: nat)
    requires k + |needle| <= |hay| && hay[k..k + |needle|] == needle
    ensures IsInfix(needle, hay)
  {
    if k > 0 {
      InfixAt(needle, hay[1..], k - 1);
      assert hay[1..][k - 1..k - 1 + |needle|] == hay[k..k + |needle|];
    } else {
      assert hay[..|needle|] == hay[k..k + |needle|];
    }
  }

  /** The empty search matches everything. */
  lemma ILikeEmpty(hay: string)
    ensures ILike(hay, "")
  {
    assert StartsWith(Lower(hay), Lower(""));
  }

  // ---------------------------------------------------------------------------
  // Ordering: `YYYY-MM-DD` strings compare by date exactly when they compare
  // character by character.

  predicate LexLe(a: string, b: string) {
    |a| == 0 || (|b| > 0 && (a[0] < b[0] || (a[0] == b[0] && LexLe(a[1..], b[1..]))))
  }

  lemma {:induction false} LexLeTotal(a: string, b: string)
    ensures LexLe(a, b) || LexLe(b, a)
  {
    if |a| > 0 && |b| > 0 && a[0] == b[0] {
      LexLeTotal(a[1..], b[1..]);
    }
  }

  lemma {:induction false} LexLeTransitive(a: string, b: string, c: string)
    requires LexLe(a, b) && LexLe(b, c)
    ensures LexLe(a, c)
  {
    if |a| > 0 && |b| > 0 && |c| > 0 && a[0] == b[0] == c[0] {
      LexLeTransitive(a[1..], b[1..], c[1..]);
    }
  }

  lemma {:induction false} LexLeAntisymmetric(a: string, b: string)
    requires LexLe(a, b) && LexLe(b, a)
    ensures a == b
  {
    if |a| > 0 && |b| > 0 {
      LexLeAntisymmetric(a[1..], b[1..]);
      assert a == [a[0]] + a[1..] && b == [b[0]] + b[1..];
    }
  }

  /** The `YYYY-MM-DD` shape the DTOs enforce with `/^\d{4}-\d{2}-\d{2}$/`. */
  predicate IsDateString(s: string) {
    |s| == 10 && s[4] == '-' && s[7] == '-'
    && forall i :: 0 <= i < 10 && i != 4 && i != 7 ==> '0' <= s[i] <= '9'
  }
}
