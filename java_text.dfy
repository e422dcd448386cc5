/**
 * The handful of java.lang.String and java.lang.Integer operations the DICT
 * client relies on, written out as the JDK defines them: `trim`, `split`
 * with a limit on a one-character separator, `replaceAll("^\"|\"$", "")`,
 * `replace("\"", "")`, `endsWith` and `Integer.parseInt`.
 */
module JavaText {

  /** `String.trim` removes every char whose code is at most U+0020. */
  predicate IsTrimmable(c: char) {
    c <= ' '
  }

  /** `s.trim().isEmpty()` */
  predicate IsBlank(s: string) {
    forall i :: 0 <= i < |s| ==> IsTrimmable(s[i])
  }

  /** A string that `trim` leaves as it is. */
  predicate IsTrimmed(s: string) {
    s == [] || (!IsTrimmable(s[0]) && !IsTrimmable(s[|s| - 1]))
  }

  /** Drops the leading trimmable chars. */
  function TrimStart(s: string): string {
    if |s| > 0 && IsTrimmable(s[0]) then TrimStart(s[1..]) else s
  }

  /** TrimStart drops a prefix of trimmable chars and stops at the first kept one. */
  lemma {:induction false} TrimStartDrops(s: string)
    ensures var r := TrimStart(s);
      && |r| <= |s| && r == s[|s| - |r|..]
      && (forall i :: 0 <= i < |s| - |r| ==> IsTrimmable(s[i]))
      && (r == [] || !IsTrimmable(r[0]))
  {
    if |s| > 0 && IsTrimmable(s[0]) {
      TrimStartDrops(s[1..]);
    }
  }

  /** Drops the trailing trimmable chars. */
  function TrimEnd(s: string): string {
    if |s| > 0 && IsTrimmable(s[|s| - 1]) then TrimEnd(s[..|s| - 1]) else s
  }

  /** TrimEnd drops a suffix of trimmable chars and stops at the last kept one. */
  lemma {:induction false} TrimEndDrops(s: string)
    ensures var r := TrimEnd(s);
      && |r| <= |s| && r == s[..|r|]
      && (forall i :: |r| <= i < |s| ==> IsTrimmable(s[i]))
      && (r == [] || !IsTrimmable(r[|r| - 1]))
  {
    if |s| > 0 && IsTrimmable(s[|s| - 1]) {
      TrimEndDrops(s[..|s| - 1]);
    }
  }

  /** `String.trim`: leading whitespace first, then trailing, as the JDK does it. */
  function Trim(s: string): (r: string)
    ensures IsTrimmed(r)
  {
    TrimStartDrops(s);
    TrimEndDrops(TrimStart(s));
    TrimEnd(TrimStart(s))
  }

  /** `trim` leaves nothing exactly when every character is whitespace. */
  lemma TrimEmpty(s: string)
    ensures Trim(s) == [] <==> IsBlank(s)
  {
    TrimStartDrops(s);
    TrimEndDrops(TrimStart(s));
  }

  lemma InSlice(s: string, i: nat, j: nat, c: char)
    requires i <= j <= |s| && c in s[i..j]
    ensures c in s
  {
    var k :| 0 <= k < j - i && s[i..j][k] == c;
    assert s[i + k] == c;
  }

  /** `trim` only removes chars: whatever it keeps was in the input. */
  lemma TrimKeepsChars(s: string, c: char)
    requires c in Trim(s)
    ensures c in s
  {
    var t := TrimStart(s);
    TrimStartDrops(s);
    TrimEndDrops(t);
    InSlice(t, 0, |Trim(s)|, c);
    InSlice(s, |s| - |t|, |s|, c);
  }

  lemma TrimmedIsFixpoint(s: string)
    requires IsTrimmed(s)
    ensures Trim(s) == s
  {
  }

  lemma {:induction false} TrimIdempotent(s: string)
    ensures Trim(Trim(s)) == Trim(s)
  {
    TrimmedIsFixpoint(Trim(s));
  }

  /** Blank text before a string that starts with a kept char is all that TrimStart drops. */
  lemma {:induction false} TrimStartOfPadded(a: string, t: string)
    requires IsBlank(a) && (t == [] || !IsTrimmable(t[0]))
    ensures TrimStart(a + t) == t
  {
    if a != [] {
      assert (a + t)[1..] == a[1..] + t;
      TrimStartOfPadded(a[1..], t);
    } else {
      assert a + t == t;
    }
  }

  /** Blank text after a string that ends with a kept char is all that TrimEnd drops. */
  lemma {:induction false} TrimEndOfPadded(t: string, b: string)
    requires IsBlank(b) && (t == [] || !IsTrimmable(t[|t| - 1]))
    ensures TrimEnd(t + b) == t
  {
    if b != [] {
      var front := b[..|b| - 1];
      assert (t + b)[..|t + b| - 1] == t + front;
      TrimEndOfPadded(t, front);
    } else {
      assert t + b == t;
    }
  }

  /** `trim` removes exactly the blank padding after a trimmed string. */
  lemma TrimTrailingPadding(t: string, b: string)
    requires IsBlank(b) && IsTrimmed(t) && t != []
    ensures Trim(t + b) == t
  {
    assert (t + b)[0] == t[0];
    TrimEndOfPadded(t, b);
  }

  /** `trim` removes exactly the blank padding around a trimmed string. */
  lemma TrimPadded(a: string, t: string, b: string)
    requires IsBlank(a) && IsBlank(b) && IsTrimmed(t) && t != []
    ensures Trim(a + t + b) == t
  {
    assert a + t + b == a + (t + b);
    TrimStartOfPadded(a, t + b);
    TrimEndOfPadded(t, b);
  }

  /** Index of the first `c` in `s`, or `|s|` when there is none (`indexOf`). */
  function IndexOf(s: string, c: char): (k: nat)
    ensures k <= |s|
    ensures k < |s| ==> s[k] == c
    ensures forall i :: 0 <= i < k ==> s[i] != c
  {
    if s == [] then 0
    else if s[0] == c then 0
    else 1 + IndexOf(s[1..], c)
  }

  /**
   * `s.split(c, 2)` for a one-character separator: None when the result has
   * a single part (no separator), else the text before and after the first
   * separator.
   */
  function SplitOnce(s: string, c: char): (r: Option<(string, string)>)
    ensures r.None? <==> c !in s
    ensures r.Some? ==> r.value.0 + [c] + r.value.1 == s && c !in r.value.0
  {
    var k := IndexOf(s, c);
    if k == |s| then None
    else
      assert s == s[..k] + [c] + s[k + 1..];
      Some((s[..k], s[k + 1..]))
  }

  /** The split happens at the first separator, wherever later ones are. */
  lemma {:induction false} SplitOnceAtFirst(a: string, c: char, b: string)
    requires c !in a
    ensures SplitOnce(a + [c] + b, c) == Some((a, b))
  {
    IndexOfFirst(a, c, b);
    var s := a + [c] + b;
    assert s[..|a|] == a && s[|a| + 1..] == b;
  }

  lemma {:induction false} IndexOfFirst(a: string, c: char, b: string)
    requires c !in a
    ensures IndexOf(a + [c] + b, c) == |a|
  {
    if a != [] {
      assert (a + [c] + b)[1..] == a[1..] + [c] + b;
      IndexOfFirst(a[1..], c, b);
    }
  }

  /** `s.split(" ")[0]`: the text before the first space. */
  function FirstField(s: string): (r: string)
    ensures ' ' !in r
    ensures r <= s
    ensures |r| == |s| || s[|r|] == ' '
  {
    s[..IndexOf(s, ' ')]
  }

  /** `s.split(" ", 3)[1]`, or None when the split has a single part. */
  function SecondField(s: string): (r: Option<string>)
    ensures r.Some? <==> ' ' in s
    ensures r.Some? ==> ' ' !in r.value
    ensures r.Some? ==> var from := IndexOf(s, ' ') + 1;
                        && from + |r.value| <= |s| && s[from..from + |r.value|] == r.value
                        && (from + |r.value| == |s| || s[from + |r.value|] == ' ')
  {
    match SplitOnce(s, ' ')
    case None => None
    case Some((_, rest)) => Some(FirstField(rest))
  }

  /** `s.replaceAll("^\"|\"$", "")`: one leading and one trailing quote go. */
  function StripOuterQuotes(s: string): (r: string)
    ensures |s| - 2 <= |r| <= |s|
    ensures (|s| > 0 && s[0] == '"') ==> r <= s[1..]
    ensures !(|s| > 0 && s[0] == '"') ==> r <= s
    ensures (|s| > 0 && s[0] != '"' && s[|s| - 1] != '"') ==> r == s
    ensures var lead: string := if |s| > 0 && s[0] == '"' then "\"" else "";
            var rest := s[|lead|..];
            var trail: string := if |rest| > 0 && rest[|rest| - 1] == '"' then "\"" else "";
            s == lead + r + trail
  {
    var t := if |s| > 0 && s[0] == '"' then s[1..] else s;
    if |t| > 0 && t[|t| - 1] == '"' then t[..|t| - 1] else t
  }

  /** `s.replace("\"", "")`: every quote goes, every other char stays. */
  function RemoveQuotes(s: string): (r: string)
    ensures '"' !in r
    ensures |r| <= |s|
    ensures forall c :: c in r ==> c in s
    ensures multiset(r) == multiset(s)['"' := 0]
  {
    if s == [] then []
    else
      assert s == [s[0]] + s[1..];
      (if s[0] == '"' then [] else [s[0]]) + RemoveQuotes(s[1..])
  }

  /** The chars that stay keep their order: removal works piece by piece. */
  lemma {:induction false} RemoveQuotesAppend(a: string, b: string)
    ensures RemoveQuotes(a + b) == RemoveQuotes(a) + RemoveQuotes(b)
  {
    if a != [] {
      assert (a + b)[1..] == a[1..] + b;
      RemoveQuotesAppend(a[1..], b);
    } else {
      assert a + b == b;
    }
  }

  lemma {:induction false} RemoveQuotesOfQuoteFree(s: string)
    requires '"' !in s
    ensures RemoveQuotes(s) == s
  {
    if s != [] {
      RemoveQuotesOfQuoteFree(s[1..]);
      assert [s[0]] + s[1..] == s;
    }
  }

  /** `s.endsWith("\"") ? s.substring(0, s.length() - 1) : s` */
  function DropTrailingQuote(s: string): (r: string)
    ensures r <= s
    ensures |s| > 0 && s[|s| - 1] == '"' ==> |r| == |s| - 1
    ensures !(|s| > 0 && s[|s| - 1] == '"') ==> r == s
  {
    if |s| > 0 && s[|s| - 1] == '"' then s[..|s| - 1] else s
  }

  // ---------------------------------------------------------------------
  // Integer.parseInt (radix 10)
  // ---------------------------------------------------------------------

  datatype Option<+T> = None | Some(value: T)

  const IntMin: int := -0x8000_0000
  const IntMax: int := 0x7fff_ffff

  predicate IsDigit(c: char) {
    '0' <= c <= '9'
  }

  predicate AllDigits(s: string) {
    forall i :: 0 <= i < |s| ==> IsDigit(s[i])
  }

  function DigitValue(c: char): (d: nat)
    requires IsDigit(c)
    ensures d < 10
  {
    (c as int) - ('0' as int)
  }

  function DigitChar(d: nat): (c: char)
    requires d < 10
    ensures IsDigit(c) && DigitValue(c) == d
  {
    (('0' as int) + d) as char
  }

  /** Decimal value of a run of digits, most significant first. */
  function DigitsValue(s: string): nat
    requires AllDigits(s)
  {
    if s == [] then 0 else 10 * DigitsValue(s[..|s| - 1]) + DigitValue(s[|s| - 1])
  }

  /** What `Integer.parseInt` reads: an optional sign, then at least one digit and nothing else. */
  predicate IsNumeral(s: string) {
    && |s| > 0
    && (IsDigit(s[0]) || ((s[0] == '-' || s[0] == '+') && |s| > 1))
    && AllDigits(s[1..])
  }

  /** The value a numeral denotes, before any range check. */
  function NumeralValue(s: string): int
    requires IsNumeral(s)
  {
    var magnitude := if IsDigit(s[0]) then DigitsValue(s) else DigitsValue(s[1..]);
    if s[0] == '-' then -magnitude else magnitude
  }

  /**
   * `Integer.parseInt(s)`: an optional sign, at least one digit, and a value
   * that fits in 32 bits; None stands for NumberFormatException.
   */
  function ParseInt(s: string): (r: Option<int>)
    ensures r.Some? <==> IsNumeral(s) && IntMin <= NumeralValue(s) <= IntMax
    ensures r.Some? ==> r.value == NumeralValue(s)
    ensures r.Some? ==> IntMin <= r.value <= IntMax
    ensures r.Some? ==> |s| > 0 && ' ' !in s
  {
    var signed := |s| > 0 && (s[0] == '-' || s[0] == '+');
    var digits := if signed then s[1..] else s;
    if digits == [] || !AllDigits(digits) then None
    else
      var v: int := if signed && s[0] == '-' then 0 - (DigitsValue(digits) as int) else DigitsValue(digits);
      if IntMin <= v <= IntMax then
        Some(v)
      else None
  }

  /** How `Integer.toString` writes a non-negative value. */
  function NatToString(n: nat): (s: string)
    ensures |s| > 0 && AllDigits(s)
  {
    if n < 10 then [DigitChar(n)] else NatToString(n / 10) + [DigitChar(n % 10)]
  }

  lemma {:induction false} DigitsOfNatToString(n: nat)
    ensures DigitsValue(NatToString(n)) == n
  {
    if n >= 10 {
      DigitsOfNatToString(n / 10);
      var s := NatToString(n);
      assert s[..|s| - 1] == NatToString(n / 10);
    }
  }

  /** parseInt reads back every count a server writes with toString. */
  lemma {:induction false} ParseIntRoundTrip(n: nat)
    requires n <= IntMax
    ensures ParseInt(NatToString(n)) == Some(n)
  {
    DigitsOfNatToString(n);
    var s := NatToString(n);
    assert !IsDigit('-') && !IsDigit('+');
    assert s[0] != '-' && s[0] != '+';
  }

  /** How `Integer.toString` writes any int: a minus sign before the magnitude when negative. */
  function IntToString(n: int): string {
    if n < 0 then "-" + NatToString(-n) else NatToString(n)
  }

  /** parseInt reads back every int that toString writes, negative ones included. */
  lemma {:induction false} ParseIntSignedRoundTrip(n: int)
    requires IntMin <= n <= IntMax
    ensures ParseInt(IntToString(n)) == Some(n)
  {
    if n < 0 {
      DigitsOfNatToString(-n);
      var s := IntToString(n);
      assert s[1..] == NatToString(-n);
      assert !IsDigit('-');
    } else {
      ParseIntRoundTrip(n);
    }
  }
}
