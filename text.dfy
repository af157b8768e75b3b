/**
 * The string operations of the JavaScript runtime that the middleware and the
 * schemas rely on: white-space trimming, lower-casing, `startsWith`, `split`
 * on one character and `join`.
 */
module Text {

  /**
   * JavaScript's white space: the characters `String.prototype.trim` strips,
   * which are also the ones the regular-expression class `\s` matches.
   */
  predicate IsSpace(c: char) {
    c == '\t' || c == '\n' || c == '\U{B}' || c == '\U{C}' || c == '\r' || c == ' '
    || c == '\U{A0}' || c == '\U{1680}' || ('\U{2000}' <= c <= '\U{200A}')
    || c == '\U{2028}' || c == '\U{2029}' || c == '\U{202F}' || c == '\U{205F}'
    || c == '\U{3000}' || c == '\U{FEFF}'
  }

  predicate AllSpace(s: string) {
    forall i :: 0 <= i < |s| ==> IsSpace(s[i])
  }

  /** Neither the first nor the last character of `s` is white space. */
  predicate Trimmed(s: string) {
    s == [] || (!IsSpace(s[0]) && !IsSpace(s[|s| - 1]))
  }

  /** Strips leading white space: the result is the suffix left after it. */
  function TrimStart(s: string): (r: string)
    ensures |r| <= |s| && r == s[|s| - |r|..]
    ensures AllSpace(s[..|s| - |r|])
    ensures r == [] || !IsSpace(r[0])
  {
    if s != [] && IsSpace(s[0]) then TrimStart(s[1..]) else s
  }

  /** Strips trailing white space: the result is the prefix left before it. */
  function TrimEnd(s: string): (r: string)
    ensures |r| <= |s| && r == s[..|r|]
    ensures AllSpace(s[|r|..])
    ensures r == [] || !IsSpace(r[|r| - 1])
  {
    if s != [] && IsSpace(s[|s| - 1]) then TrimEnd(s[..|s| - 1]) else s
  }

  /** `String.prototype.trim`: the infix of `s` between its leading and trailing white space. */
  function Trim(s: string): (r: string)
    ensures Trimmed(r)
    ensures |r| <= |s|
  {
    TrimEnd(TrimStart(s))
  }

  lemma {:induction false} TrimStartOfSpaces(lead: string, body: string)
    requires AllSpace(lead)
    requires body == [] || !IsSpace(body[0])
    ensures TrimStart(lead + body) == body
  {
    if lead != [] {
      assert (lead + body)[1..] == lead[1..] + body;
      TrimStartOfSpaces(lead[1..], body);
    } else {
      assert lead + body == body;
    }
  }

  lemma {:induction false} TrimEndOfSpaces(body: string, trail: string)
    requires AllSpace(trail)
    requires body == [] || !IsSpace(body[|body| - 1])
    ensures TrimEnd(body + trail) == body
  {
    if trail != [] {
      assert (body + trail)[..|body + trail| - 1] == body + trail[..|trail| - 1];
      TrimEndOfSpaces(body, trail[..|trail| - 1]);
    } else {
      assert body + trail == body;
    }
  }

  /**
   * `Trim` is fully determined by what it promises: whenever `s` is some white
   * space, then a trimmed text, then some white space, trimming yields that text.
   */
  lemma TrimOf(lead: string, body: string, trail: string)
    requires AllSpace(lead) && AllSpace(trail) && Trimmed(body)
    ensures Trim(lead + body + trail) == body
  {
    if body == [] {
      assert lead + body + trail == lead + trail;
      assert AllSpace(lead + trail);
      TrimStartOfSpaces(lead + trail, []);
      assert lead + trail + [] == lead + trail;
      TrimEndOfSpaces([], []);
    } else {
      assert lead + body + trail == lead + (body + trail);
      TrimStartOfSpaces(lead, body + trail);
      TrimEndOfSpaces(body, trail);
    }
  }

  /** A trimmed text is left as it is. */
  lemma TrimOfTrimmed(t: string)
    requires Trimmed(t)
    ensures Trim(t) == t
  {
    assert [] + t + [] == t;
    TrimOf([], t, []);
  }

  /** Trimming twice is trimming once. */
  lemma TrimIdempotent(s: string)
    ensures Trim(Trim(s)) == Trim(s)
  {
    TrimOfTrimmed(Trim(s));
  }

  /** An upper-case ASCII letter. */
  predicate IsAsciiUpper(c: char) {
    'A' <= c <= 'Z'
  }

  function LowerChar(c: char): (d: char)
    ensures IsAsciiUpper(c) ==> d as int == c as int + 32 && 'a' <= d <= 'z'
    ensures !IsAsciiUpper(c) ==> d == c
    ensures !IsAsciiUpper(d)
    ensures IsSpace(d) <==> IsSpace(c)
  {
    if IsAsciiUpper(c) then (c as int + 32) as char else c
  }

  /** `String.prototype.toLowerCase`, on the ASCII letters. */
  function LowerCase(s: string): (r: string)
    ensures |r| == |s|
    ensures forall i :: 0 <= i < |r| ==> r[i] == LowerChar(s[i])
    ensures forall i :: 0 <= i < |r| ==> !IsAsciiUpper(r[i])
    ensures forall i :: 0 <= i < |r| ==> (IsSpace(r[i]) <==> IsSpace(s[i]))
  {
    seq(|s|, i requires 0 <= i < |s| => LowerChar(s[i]))
  }

  /** Lower-casing changes a text exactly when it holds an upper-case ASCII letter. */
  lemma LowerCaseFixes(s: string)
    ensures LowerCase(s) == s <==> forall i :: 0 <= i < |s| ==> !IsAsciiUpper(s[i])
  {
    if LowerCase(s) == s {
      forall i | 0 <= i < |s| ensures !IsAsciiUpper(s[i]) {
        assert LowerCase(s)[i] == s[i];
      }
    }
  }

  /** Lower-casing twice is lower-casing once. */
  lemma LowerCaseIdempotent(s: string)
    ensures LowerCase(LowerCase(s)) == LowerCase(s)
  {
    LowerCaseFixes(LowerCase(s));
  }

  /** `String.prototype.startsWith`. */
  predicate StartsWith(s: string, prefix: string) {
    |prefix| <= |s| && s[..|prefix|] == prefix
  }

  /**
   * `String.prototype.split` on a one-character separator: the pieces between
   * separators, never containing one, and one piece more than there are separators.
   */
  function Split(s: string, sep: char): (parts: seq<string>)
    ensures |parts| >= 1
    ensures forall i :: 0 <= i < |parts| ==> sep !in parts[i]
    ensures |parts| == 1 <==> sep !in s
  {
    if s == [] then [""]
    else
      var rest := Split(s[1..], sep);
      if s[0] == sep then [""] + rest
      else [[s[0]] + rest[0]] + rest[1..]
  }

  /** `Array.prototype.join`: the parts with `sep` between each neighbouring pair. */
  function Join(parts: seq<string>, sep: string): string {
    if |parts| == 0 then ""
    else if |parts| == 1 then parts[0]
    else parts[0] + sep + Join(parts[1..], sep)
  }

  /** Joining the pieces of a split with the same separator gives back the text. */
  lemma {:induction false} JoinSplit(s: string, sep: char)
    ensures Join(Split(s, sep), [sep]) == s
  {
    if s != [] {
      var rest := Split(s[1..], sep);
      JoinSplit(s[1..], sep);
      if s[0] == sep {
        assert ([""] + rest)[1..] == rest;
      } else if |rest| > 1 {
        assert ([[s[0]] + rest[0]] + rest[1..])[1..] == rest[1..];
      }
    }
  }

  /** Splitting `a`, a separator, then `b`, where `a` holds no separator, gives `a` then the pieces of `b`. */
  lemma {:induction false} SplitAfterFirst(a: string, b: string, sep: char)
    requires sep !in a
    ensures Split(a + [sep] + b, sep) == [a] + Split(b, sep)
  {
    if a == [] {
      assert a + [sep] + b == [sep] + b;
      assert ([sep] + b)[1..] == b;
    } else {
      assert (a + [sep] + b)[1..] == a[1..] + [sep] + b;
      SplitAfterFirst(a[1..], b, sep);
      assert [a[0]] + a[1..] == a;
    }
  }

  /**
   * The offset at which `parts[i]` begins inside `Join(parts, sep)`: the lengths of
   * the parts before it, each followed by a separator.
   */
  function Offset(parts: seq<string>, sep: string, i: nat): nat
    requires i <= |parts|
  {
    if i == 0 then 0 else |parts[0]| + |sep| + Offset(parts[1..], sep, i - 1)
  }

  /** A slice of `b` is the same slice of `a + b`, moved right by `|a|`. */
  lemma SliceAfter(a: string, b: string, lo: nat, hi: nat)
    requires lo <= hi <= |b|
    ensures (a + b)[|a| + lo..|a| + hi] == b[lo..hi]
  {
    assert forall k :: 0 <= k < hi - lo ==> (a + b)[|a| + lo..|a| + hi][k] == b[lo..hi][k];
  }

  /** Between each part and the next in the joined text stands exactly the separator. */
  lemma {:induction false} JoinSeparatorAt(parts: seq<string>, sep: string, i: nat)
    requires i + 1 < |parts|
    ensures Offset(parts, sep, i + 1) == Offset(parts, sep, i) + |parts[i]| + |sep|
    ensures Offset(parts, sep, i + 1) <= |Join(parts, sep)|
    ensures Join(parts, sep)[Offset(parts, sep, i) + |parts[i]|..Offset(parts, sep, i + 1)] == sep
  {
    var j := Join(parts[1..], sep);
    assert Join(parts, sep) == (parts[0] + sep) + j;
    if i == 0 {
      assert Join(parts, sep)[|parts[0]|..|parts[0]| + |sep|] == sep;
    } else {
      JoinSeparatorAt(parts[1..], sep, i - 1);
      var k := Offset(parts[1..], sep, i - 1) + |parts[i]|;
      SliceAfter(parts[0] + sep, j, k, k + |sep|);
    }
  }

  /** The joined text ends right after its last part. */
  lemma {:induction false} JoinLength(parts: seq<string>, sep: string)
    requires 0 < |parts|
    ensures |Join(parts, sep)| == Offset(parts, sep, |parts| - 1) + |parts[|parts| - 1]|
  {
    if |parts| > 1 {
      var rest := parts[1..];
      JoinLength(rest, sep);
      assert rest[|rest| - 1] == parts[|parts| - 1];
      assert Offset(parts, sep, |parts| - 1) == |parts[0]| + |sep| + Offset(rest, sep, |rest| - 1);
      assert Join(parts, sep) == parts[0] + sep + Join(rest, sep);
    }
  }

  /** Every part appears in the joined text, in order, at its offset. */
  lemma {:induction false} JoinAt(parts: seq<string>, sep: string, i: nat)
    requires i < |parts|
    ensures Offset(parts, sep, i) + |parts[i]| <= |Join(parts, sep)|
    ensures Join(parts, sep)[Offset(parts, sep, i)..Offset(parts, sep, i) + |parts[i]|] == parts[i]
  {
    if i == 0 {
      if |parts| > 1 {
        assert Join(parts, sep) == parts[0] + (sep + Join(parts[1..], sep));
      }
    } else {
      JoinAt(parts[1..], sep, i - 1);
      var j := Join(parts[1..], sep);
      var k := Offset(parts[1..], sep, i - 1);
      assert Join(parts, sep) == (parts[0] + sep) + j;
      SliceAfter(parts[0] + sep, j, k, k + |parts[i]|);
    }
  }
}
