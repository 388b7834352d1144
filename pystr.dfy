/** The Python `str` operations the bot relies on, written out over `seq<char>`.
    Each one follows CPython's definition for the inputs it can receive. */
module PyStr {
  import opened Wrappers

  /** `str.isspace` for a single character: the characters CPython counts as whitespace. */
  predicate IsSpace(c: char) {
    || c == ' ' || c == '\t' || c == '\n' || c == '\r' || c == '\U{000B}' || c == '\U{000C}'
    || ('\U{001C}' <= c <= '\U{001F}') || c == '\U{0085}' || c == '\U{00A0}' || c == '\U{1680}'
    || ('\U{2000}' <= c <= '\U{200A}') || c == '\U{2028}' || c == '\U{2029}' || c == '\U{202F}'
    || c == '\U{205F}' || c == '\U{3000}'
  }

  /** `s.lstrip()`: the longest suffix of `s` that does not start with whitespace. */
  function LStrip(s: string): (r: string)
    ensures |r| <= |s|
    ensures forall k :: 0 <= k < |s| - |r| ==> IsSpace(s[k])
    ensures r != [] ==> !IsSpace(r[0])
  {
    if s != [] && IsSpace(s[0]) then LStrip(s[1..]) else s
  }

  /** `s.rstrip()`: the longest prefix of `s` that does not end with whitespace. */
  function RStrip(s: string): (r: string)
    ensures |r| <= |s|
    ensures forall k :: |r| <= k < |s| ==> IsSpace(s[k])
    ensures r != [] ==> !IsSpace(r[|r| - 1])
  {
    if s != [] && IsSpace(s[|s| - 1]) then RStrip(s[..|s| - 1]) else s
  }

  lemma {:induction false} LStripIsSuffix(s: string)
    ensures LStrip(s) == s[|s| - |LStrip(s)|..]
    decreases |s|
  {
    if s != [] && IsSpace(s[0]) {
      LStripIsSuffix(s[1..]);
    }
  }

  lemma {:induction false} RStripIsPrefix(s: string)
    ensures RStrip(s) == s[..|RStrip(s)|]
    decreases |s|
  {
    if s != [] && IsSpace(s[|s| - 1]) {
      RStripIsPrefix(s[..|s| - 1]);
    }
  }

  /** `s.strip()`. */
  function Strip(s: string): (r: string)
    ensures |r| <= |s|
    ensures r != [] ==> !IsSpace(r[0]) && !IsSpace(r[|r| - 1])
    ensures r == [] <==> forall k :: 0 <= k < |s| ==> IsSpace(s[k])
    ensures forall c :: c in r ==> c in s
  {
    var l := LStrip(s);
    var r := RStrip(l);
    LStripIsSuffix(s);
    RStripIsPrefix(l);
    assert r != [] ==> r[0] == l[0];
    assert forall c :: c in r ==> c in l;
    assert forall c :: c in l ==> c in s;
    if r == [] then
      assert |l| == 0;
      r
    else
      assert !IsSpace(r[0]);
      assert r[0] in s;
      r
  }

  lemma StripUnpadded(s: string)
    requires s != [] && !IsSpace(s[0]) && !IsSpace(s[|s| - 1])
    ensures Strip(s) == s
  {
  }

  /** `s` starts with `c` only if `s.lstrip(c)` is a proper suffix of it. */
  lemma {:induction false} LStripCharIsSuffix(s: string, c: char)
    ensures LStripChar(s, c) == s[|s| - |LStripChar(s, c)|..]
    decreases |s|
  {
    if s != [] && s[0] == c {
      LStripCharIsSuffix(s[1..], c);
    }
  }

  /** `s.lstrip(c)` for a single character `c`. */
  function LStripChar(s: string, c: char): (r: string)
    ensures |r| <= |s|
    ensures forall k :: 0 <= k < |s| - |r| ==> s[k] == c
    ensures r != [] ==> r[0] != c
  {
    if s != [] && s[0] == c then LStripChar(s[1..], c) else s
  }

  /** `c.lower()` restricted to ASCII letters. */
  function LowerChar(c: char): char {
    if 'A' <= c <= 'Z' then (c as int + 32) as char else c
  }

  /** `s.lower()`, character by character. */
  function Lower(s: string): (r: string)
    ensures |r| == |s| && forall k :: 0 <= k < |s| ==> r[k] == LowerChar(s[k])
  {
    seq(|s|, k requires 0 <= k < |s| => LowerChar(s[k]))
  }

  lemma LowerConcat(a: string, b: string)
    ensures Lower(a + b) == Lower(a) + Lower(b)
  {
    assert forall k :: 0 <= k < |a + b| ==> Lower(a + b)[k] == (Lower(a) + Lower(b))[k];
  }

  predicate StartsWith(s: string, prefix: string) {
    |prefix| <= |s| && s[..|prefix|] == prefix
  }

  lemma PrefixOfConcat(prefix: string, rest: string)
    ensures StartsWith(prefix + rest, prefix)
  {
    assert (prefix + rest)[..|prefix|] == prefix;
  }

  predicate OccursAt(s: string, p: string, i: int) {
    0 <= i && i + |p| <= |s| && s[i..i + |p|] == p
  }

  /** The first index at or after `i` where `p` occurs in `s`. */
  function FindFrom(s: string, p: string, i: nat): (r: Option<nat>)
    requires i <= |s|
    ensures r.Some? ==> i <= r.value && OccursAt(s, p, r.value)
    ensures r.Some? ==> forall k :: i <= k < r.value ==> !OccursAt(s, p, k)
    ensures r.None? ==> forall k :: i <= k ==> !OccursAt(s, p, k)
    decreases |s| - i
  {
    if i + |p| > |s| then None
    else if s[i..i + |p|] == p then Some(i)
    else if i == |s| then None
    else FindFrom(s, p, i + 1)
  }

  /** `s.find(p)`, with `None` for -1. */
  function Find(s: string, p: string): (r: Option<nat>)
    ensures r.Some? ==> OccursAt(s, p, r.value) && forall k :: 0 <= k < r.value ==> !OccursAt(s, p, k)
    ensures r.None? ==> forall k :: !OccursAt(s, p, k)
  {
    FindFrom(s, p, 0)
  }

  /** A pattern whose first character `s` lacks does not occur in `s`. */
  lemma AbsentFirstChar(s: string, p: string)
    requires p != [] && p[0] !in s
    ensures Find(s, p).None?
  {
  }

  /** `p in s` for strings. */
  predicate Contains(s: string, p: string) {
    Find(s, p).Some?
  }

  /** Where `p + q` occurs in `s`, so does `p`. */
  lemma ContainsPrefix(s: string, p: string, q: string)
    requires Contains(s, p + q)
    ensures Contains(s, p)
  {
    var i := Find(s, p + q).value;
    assert s[i..i + |p + q|] == p + q;
    forall k | 0 <= k < |p|
      ensures s[i..i + |p|][k] == p[k]
    {
      assert s[i..i + |p|][k] == s[i..i + |p + q|][k] == (p + q)[k];
    }
    assert OccursAt(s, p, i);
  }

  /** `s.partition(sep)`: the text before the first `sep`, the separator (or ""), the rest. */
  function Partition(s: string, sep: string): (r: (string, string, string))
    ensures r.0 + r.1 + r.2 == s
    ensures Contains(s, sep) <==> r.1 == sep
    ensures !Contains(s, sep) ==> r == (s, "", "")
  {
    match Find(s, sep)
    case None => (s, "", "")
    case Some(i) =>
      assert s[..i] + sep + s[i + |sep|..] == s by {
        assert s[i..i + |sep|] == sep;
        assert s == s[..i] + s[i..i + |sep|] + s[i + |sep|..];
      }
      (s[..i], sep, s[i + |sep|..])
  }

  /** `sep.join(parts)`. */
  function Join(parts: seq<string>, sep: string): string {
    if |parts| == 0 then ""
    else if |parts| == 1 then parts[0]
    else parts[0] + sep + Join(parts[1..], sep)
  }

  /** Joining non-empty parts gives the empty string only when there are no parts. */
  lemma JoinEmpty(parts: seq<string>, sep: string)
    requires forall k :: 0 <= k < |parts| ==> parts[k] != []
    ensures Join(parts, sep) == [] <==> parts == []
  {
    if |parts| >= 2 {
      assert |Join(parts, sep)| >= |parts[0]|;
    }
  }

  lemma OccursAtChar(s: string, c: char, k: int)
    ensures OccursAt(s, [c], k) <==> 0 <= k < |s| && s[k] == c
  {
    if 0 <= k < |s| {
      assert s[k..k + 1] == [s[k]];
    }
  }

  /** `s.split(c)` for a one-character separator. */
  function Split(s: string, c: char): (r: seq<string>)
    ensures |r| >= 1
    ensures forall k :: 0 <= k < |r| ==> c !in r[k]
    ensures Join(r, [c]) == s
    decreases |s|
  {
    match Find(s, [c])
    case None =>
      assert c !in s by {
        forall k | 0 <= k < |s| ensures s[k] != c { OccursAtChar(s, c, k); }
      }
      [s]
    case Some(i) =>
      OccursAtChar(s, c, i);
      assert c !in s[..i] by {
        forall k | 0 <= k < i ensures s[k] != c { OccursAtChar(s, c, k); }
      }
      var rest := Split(s[i + 1..], c);
      assert s == s[..i] + [c] + s[i + 1..];
      [s[..i]] + rest
  }

  /** `s.replace(c, "")` for a single character. */
  function RemoveAll(s: string, c: char): (r: string)
    ensures c !in r
    ensures forall x :: x in r ==> x in s
    ensures c !in s ==> r == s
    ensures |r| <= |s|
  {
    if s == [] then []
    else (if s[0] == c then [] else [s[0]]) + RemoveAll(s[1..], c)
  }

  /** `s.replace(p, "", 1)`. */
  function ReplaceFirst(s: string, p: string): string {
    match Find(s, p)
    case None => s
    case Some(i) => s[..i] + s[i + |p|..]
  }

  /** When the head lacks the pattern's first character, the occurrence right after the
      head is the first one, and it is the one removed. */
  lemma ReplaceFirstAfter(head: string, p: string, tail: string)
    requires p != [] && p[0] !in head
    ensures ReplaceFirst(head + p + tail, p) == head + tail
  {
    var s := head + p + tail;
    assert s[|head|..|head| + |p|] == p;
    assert OccursAt(s, p, |head|);
    forall k | 0 <= k < |head| ensures !OccursAt(s, p, k) {
      assert s[k] == head[k];
      if k + |p| <= |s| {
        assert s[k..k + |p|][0] == s[k];
      }
    }
    assert Find(s, p) == Some(|head|);
    assert s[..|head|] == head && s[|head| + |p|..] == tail;
  }

  /** `s.replace(p, "")` for a non-empty `p`: every occurrence, found left to right, dropped. */
  function ReplaceAll(s: string, p: string): (r: string)
    requires p != []
    decreases |s|
  {
    if |s| < |p| then s
    else if s[..|p|] == p then ReplaceAll(s[|p|..], p)
    else [s[0]] + ReplaceAll(s[1..], p)
  }

  predicate IsDigit(c: char) {
    '0' <= c <= '9'
  }

  /** `s.isdigit()`, for ASCII digits. */
  predicate IsDecimal(s: string) {
    |s| > 0 && forall k :: 0 <= k < |s| ==> IsDigit(s[k])
  }

  /** `int(s)` for a string of ASCII digits. */
  function DecimalValue(s: string): nat
    requires forall k :: 0 <= k < |s| ==> IsDigit(s[k])
  {
    if s == [] then 0
    else
      var last := s[|s| - 1];
      assert IsDigit(last);
      DecimalValue(s[..|s| - 1]) * 10 + (last as int - '0' as int)
  }

  /** `str(n)` for a natural number: decimal digits, no leading zero. */
  function NatToString(n: nat): (r: string)
    ensures r != [] && forall k :: 0 <= k < |r| ==> IsDigit(r[k])
    decreases n
  {
    var d := [('0' as int + n % 10) as char];
    if n < 10 then d else NatToString(n / 10) + d
  }

  /** `int(str(n)) == n`. */
  lemma {:induction false} NatToStringRoundTrip(n: nat)
    ensures DecimalValue(NatToString(n)) == n
    decreases n
  {
    var d := [('0' as int + n % 10) as char];
    if n >= 10 {
      NatToStringRoundTrip(n / 10);
      var s := NatToString(n / 10) + d;
      assert s[..|s| - 1] == NatToString(n / 10);
    }
  }

  /** `str(i)` for any integer. */
  function IntToString(i: int): (r: string)
    ensures r != []
    ensures i >= 0 ==> IsDecimal(r) && DecimalValue(r) == i
    ensures i < 0 ==> r[0] == '-' && IsDecimal(r[1..]) && DecimalValue(r[1..]) == -i
  {
    if i >= 0 then
      NatToStringRoundTrip(i);
      NatToString(i)
    else
      NatToStringRoundTrip(-i);
      var r := "-" + NatToString(-i);
      assert r[1..] == NatToString(-i);
      r
  }

  /** `", ".join("@" + name for name in names)`. */
  function Mentions(names: seq<string>): string {
    Join(seq(|names|, i requires 0 <= i < |names| => "@" + names[i]), ", ")
  }

  lemma MentionsStart(names: seq<string>)
    requires names != []
    ensures Mentions(names) != [] && Mentions(names)[0] == '@'
  {
    var ms := seq(|names|, i requires 0 <= i < |names| => "@" + names[i]);
    if |ms| == 1 {
      assert Mentions(names) == ms[0];
    } else {
      assert Mentions(names) == ms[0] + ", " + Join(ms[1..], ", ");
    }
  }
}
