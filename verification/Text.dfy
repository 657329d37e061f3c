/**
 * The string operations the grammar of entity references is written with:
 * trimming, splitting on the first or last delimiter, and unsigned decimals.
 */
module Text {
  import opened Wrappers

  // The Unicode property White_Space, which `str::trim` uses.
  predicate IsWhitespace(c: char) {
    || '\t' <= c <= '\r'
    || c == ' '
    || c == '\U{0085}'
    || c == '\U{00A0}'
    || c == '\U{1680}'
    || '\U{2000}' <= c <= '\U{200A}'
    || c == '\U{2028}'
    || c == '\U{2029}'
    || c == '\U{202F}'
    || c == '\U{205F}'
    || c == '\U{3000}'
  }

  predicate NoTrailingSpace(s: string) {
    s != "" ==> !IsWhitespace(s[|s| - 1])
  }

  predicate NoLeadingSpace(s: string) {
    s != "" ==> !IsWhitespace(s[0])
  }

  function TrimStart(s: string): (r: string)
    ensures NoLeadingSpace(r)
    ensures NoLeadingSpace(s) ==> r == s
    ensures NoTrailingSpace(s) ==> NoTrailingSpace(r)
  {
    if s != "" && IsWhitespace(s[0]) then TrimStart(s[1..]) else s
  }

  function TrimEnd(s: string): (r: string)
    ensures NoTrailingSpace(r)
    ensures NoTrailingSpace(s) ==> r == s
    ensures r <= s
  {
    if s != "" && IsWhitespace(s[|s| - 1]) then TrimEnd(s[..|s| - 1]) else s
  }

  lemma {:induction false} TrimEndKeeps(s: string, i: nat)
    requires i < |s| && !IsWhitespace(s[i])
    ensures i < |TrimEnd(s)| && TrimEnd(s)[i] == s[i]
  {
    if IsWhitespace(s[|s| - 1]) {
      TrimEndKeeps(s[..|s| - 1], i);
    }
  }

  function Trim(s: string): (r: string)
    ensures NoLeadingSpace(r) && NoTrailingSpace(r)
    ensures NoLeadingSpace(s) && NoTrailingSpace(s) ==> r == s
  {
    TrimStart(TrimEnd(s))
  }

  /** White space and nothing else. */
  predicate Blank(s: string) {
    forall i :: 0 <= i < |s| ==> IsWhitespace(s[i])
  }

  /** The characters with the Unicode property White_Space. */
  lemma WhitespaceExactly(c: char)
    ensures IsWhitespace(c)
            <==> c as int in {0x9, 0xA, 0xB, 0xC, 0xD, 0x20, 0x85, 0xA0, 0x1680, 0x2000, 0x2001, 0x2002, 0x2003,
                              0x2004, 0x2005, 0x2006, 0x2007, 0x2008, 0x2009, 0x200A, 0x2028, 0x2029, 0x202F,
                              0x205F, 0x3000}
  {
  }

  /** Trimming at the start takes off white space and nothing else. */
  lemma {:induction false} TrimStartExactly(pad: string, s: string)
    requires Blank(pad) && NoLeadingSpace(s)
    ensures TrimStart(pad + s) == s
    decreases |pad|
  {
    if pad == "" {
      assert pad + s == s;
    } else {
      assert (pad + s)[0] == pad[0] && (pad + s)[1..] == pad[1..] + s;
      TrimStartExactly(pad[1..], s);
    }
  }

  lemma {:induction false} TrimEndExactly(s: string, pad: string)
    requires Blank(pad) && NoTrailingSpace(s)
    ensures TrimEnd(s + pad) == s
    decreases |pad|
  {
    if pad == "" {
      assert s + pad == s;
    } else {
      var n := |pad| - 1;
      assert (s + pad)[|s + pad| - 1] == pad[n] && (s + pad)[..|s + pad| - 1] == s + pad[..n];
      TrimEndExactly(s, pad[..n]);
    }
  }

  /** Trimming takes off the white space on both sides and nothing else. */
  lemma TrimExactly(before: string, s: string, behind: string)
    requires Blank(before) && Blank(behind) && NoLeadingSpace(s) && NoTrailingSpace(s)
    ensures Trim(before + s + behind) == s
  {
    if s == "" {
      assert before + s + behind == "" + (before + behind);
      TrimEndExactly("", before + behind);
    } else {
      TrimEndExactly(before + s, behind);
      TrimStartExactly(before, s);
    }
  }

  lemma {:induction false} TrimStartKeeps(s: string, i: nat)
    requires i < |s| && !IsWhitespace(s[i])
    ensures TrimStart(s) != ""
  {
    if IsWhitespace(s[0]) {
      TrimStartKeeps(s[1..], i - 1);
    }
  }

  /** One character that is not white space keeps a text from being blank. */
  lemma NotBlankAt(s: string, i: nat)
    requires i < |s| && !IsWhitespace(s[i])
    ensures Trim(s) != ""
  {
    TrimEndKeeps(s, i);
    TrimStartKeeps(TrimEnd(s), i);
  }

  /** Trimming leaves nothing of blank texts only. */
  lemma TrimmedBlank(s: string)
    ensures Trim(s) == "" <==> Blank(s)
  {
    if Blank(s) {
      assert "" + "" + s == s;
      TrimExactly("", "", s);
    } else {
      var i :| 0 <= i < |s| && !IsWhitespace(s[i]);
      NotBlankAt(s, i);
    }
  }

  /** `str::split_once`: cut at the first occurrence of `c`. */
  function SplitOnce(s: string, c: char): (r: Option<(string, string)>)
    ensures r.None? <==> c !in s
    ensures r.Some? ==> s == r.value.0 + [c] + r.value.1 && c !in r.value.0
  {
    if s == "" then None
    else if s[0] == c then Some(("", s[1..]))
    else
      match SplitOnce(s[1..], c)
      case None => None
      case Some((a, b)) => Some(([s[0]] + a, b))
  }

  /** `str::rsplit_once`: cut at the last occurrence of `c`. */
  function RSplitOnce(s: string, c: char): (r: Option<(string, string)>)
    ensures r.None? <==> c !in s
    ensures r.Some? ==> s == r.value.0 + [c] + r.value.1 && c !in r.value.1
  {
    if s == "" then None
    else if s[|s| - 1] == c then Some((s[..|s| - 1], ""))
    else
      match RSplitOnce(s[..|s| - 1], c)
      case None => None
      case Some((a, b)) => Some((a, b + [s[|s| - 1]]))
  }

  /** `str::rsplit_once` with a two-character pattern. */
  function RSplitPair(s: string, c: char, d: char): (r: Option<(string, string)>)
    ensures r.Some? ==> s == r.value.0 + [c, d] + r.value.1
  {
    if |s| < 2 then None
    else if s[|s| - 2] == c && s[|s| - 1] == d then Some((s[..|s| - 2], ""))
    else
      match RSplitPair(s[..|s| - 1], c, d)
      case None => None
      case Some((a, b)) => Some((a, b + [s[|s| - 1]]))
  }

  /** `str::split`: all the pieces between occurrences of `c`. */
  function SplitAll(s: string, c: char): (parts: seq<string>)
    ensures |parts| >= 1
    ensures forall p :: p in parts ==> c !in p
    ensures var tail := parts[|parts| - 1]; |tail| <= |s| && tail == s[|s| - |tail|..]
    decreases |s|
  {
    match SplitOnce(s, c)
    case None => [s]
    case Some((a, b)) => [a] + SplitAll(b, c)
  }

  /** The inverse of `SplitAll`. */
  function JoinAll(parts: seq<string>, c: char): (s: string)
  {
    if parts == [] then ""
    else if |parts| == 1 then parts[0]
    else parts[0] + [c] + JoinAll(parts[1..], c)
  }

  lemma {:induction false} SplitOnceAt(a: string, c: char, b: string)
    requires c !in a
    ensures SplitOnce(a + [c] + b, c) == Some((a, b))
  {
    var s := a + [c] + b;
    if a == "" {
      assert s[1..] == b;
    } else {
      SplitOnceAt(a[1..], c, b);
      assert s[1..] == a[1..] + [c] + b;
      assert [a[0]] + a[1..] == a;
    }
  }

  lemma {:induction false} RSplitOnceAt(a: string, c: char, b: string)
    requires c !in b
    ensures RSplitOnce(a + [c] + b, c) == Some((a, b))
  {
    var s := a + [c] + b;
    if b == "" {
      assert s[..|s| - 1] == a;
    } else {
      var b' := b[..|b| - 1];
      RSplitOnceAt(a, c, b');
      assert s[..|s| - 1] == a + [c] + b';
      assert b' + [b[|b| - 1]] == b;
    }
  }

  lemma {:induction false} RSplitPairAt(a: string, c: char, d: char, b: string)
    requires c !in b && c != d
    ensures RSplitPair(a + [c, d] + b, c, d) == Some((a, b))
  {
    var s := a + [c, d] + b;
    if b == "" {
      assert s[..|s| - 2] == a;
    } else {
      var b' := b[..|b| - 1];
      RSplitPairAt(a, c, d, b');
      assert s[..|s| - 1] == a + [c, d] + b';
      assert s[|s| - 2] == (if |b| >= 2 then b[|b| - 2] else d);
      assert b' + [b[|b| - 1]] == b;
    }
  }

  lemma SplitAllCons(a: string, c: char, b: string)
    requires c !in a
    ensures SplitAll(a + [c] + b, c) == [a] + SplitAll(b, c)
  {
    SplitOnceAt(a, c, b);
  }

  lemma {:induction false} SplitAllConcat(a: string, c: char, b: string)
    ensures SplitAll(a + [c] + b, c) == SplitAll(a, c) + SplitAll(b, c)
    decreases |a|
  {
    match SplitOnce(a, c)
    case None =>
      SplitAllCons(a, c, b);
    case Some((x, y)) =>
      assert a + [c] + b == x + [c] + (y + [c] + b);
      SplitAllCons(x, c, y + [c] + b);
      SplitAllConcat(y, c, b);
  }

  lemma {:induction false} SplitAllJoin(parts: seq<string>, c: char)
    requires parts != []
    requires forall p :: p in parts ==> c !in p
    ensures SplitAll(JoinAll(parts, c), c) == parts
  {
    if |parts| > 1 {
      SplitAllJoin(parts[1..], c);
      SplitAllCons(parts[0], c, JoinAll(parts[1..], c));
      assert parts == [parts[0]] + parts[1..];
    }
  }

  lemma {:induction false} JoinSplitAll(s: string, c: char)
    ensures JoinAll(SplitAll(s, c), c) == s
    decreases |s|
  {
    match SplitOnce(s, c)
    case None =>
    case Some((a, b)) =>
      JoinSplitAll(b, c);
      JoinCons(a, SplitAll(b, c), c);
  }

  lemma JoinCons(part: string, parts: seq<string>, c: char)
    requires parts != []
    ensures JoinAll([part] + parts, c) == part + [c] + JoinAll(parts, c)
  {
    assert ([part] + parts)[1..] == parts;
  }

  // ---- unsigned decimals ----

  predicate IsDigit(c: char) {
    '0' <= c <= '9'
  }

  predicate AllDigits(s: string) {
    forall i :: 0 <= i < |s| ==> IsDigit(s[i])
  }

  function DecimalValue(s: string): nat
    requires AllDigits(s)
  {
    if s == "" then 0
    else DecimalValue(s[..|s| - 1]) * 10 + (s[|s| - 1] as int - '0' as int)
  }

  function ShowDecimal(n: nat): (s: string)
    ensures s != "" && AllDigits(s)
  {
    if n < 10 then ['0' + n as char]
    else ShowDecimal(n / 10) + ['0' + (n % 10) as char]
  }

  /** `str::parse` for an unsigned type with largest value `max`. */
  function ParseDecimal(s: string, max: nat): (r: Option<nat>)
    ensures r.Some? ==> r.value <= max
  {
    var digits := if s != "" && s[0] == '+' then s[1..] else s;
    if digits == "" || !AllDigits(digits) then None
    else if DecimalValue(digits) > max then None
    else Some(DecimalValue(digits))
  }

  lemma {:induction false} ShowDecimalValue(n: nat)
    ensures DecimalValue(ShowDecimal(n)) == n
  {
    var s := ShowDecimal(n);
    if n < 10 {
      assert s[..0] == "";
    } else {
      ShowDecimalValue(n / 10);
      assert s[..|s| - 1] == ShowDecimal(n / 10);
    }
  }

  lemma ParseShowDecimal(n: nat, max: nat)
    requires n <= max
    ensures ParseDecimal(ShowDecimal(n), max) == Some(n)
  {
    ShowDecimalValue(n);
    assert IsDigit(ShowDecimal(n)[0]);
  }

  lemma ShowDecimalInjective(m: nat, n: nat)
    requires ShowDecimal(m) == ShowDecimal(n)
    ensures m == n
  {
    ShowDecimalValue(m);
    ShowDecimalValue(n);
  }

  lemma DigitsAvoid(s: string)
    requires AllDigits(s)
    ensures ':' !in s && '@' !in s && '\0' !in s && NoTrailingSpace(s)
  {
  }
}
