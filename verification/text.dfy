/** String primitives of Python's `str` that the backend relies on: `strip`,
    `rstrip(c)`, `split(sep)`, `split()`, `sep.join`, `in` on strings,
    `isdigit`, `int()` and `str()` of an integer.  Whitespace and digits are
    the ASCII ones. */
module Text {
  import opened Wrappers

  /** Python's `str.isspace()` on ASCII: space, \t \n \v \f \r and \x1c-\x1f. */
  predicate IsSpace(c: char) {
    c == ' ' || ('\t' <= c <= '\r') || ('\U{1C}' <= c <= '\U{1F}')
  }

  predicate AllSpace(s: string) {
    forall k | 0 <= k < |s| :: IsSpace(s[k])
  }

  predicate NoSpace(s: string) {
    forall k | 0 <= k < |s| :: !IsSpace(s[k])
  }

  /** A string that `strip()` leaves unchanged. */
  predicate Trimmed(s: string) {
    s == [] || (!IsSpace(s[0]) && !IsSpace(s[|s| - 1]))
  }

  // ---------------------------------------------------------------------------
  // strip / rstrip

  function LStrip(s: string): (r: string)
    ensures |r| <= |s|
    ensures r == [] || !IsSpace(r[0])
  {
    if s != [] && IsSpace(s[0]) then LStrip(s[1..]) else s
  }

  /** What `LStrip` keeps is a suffix of its argument. */
  lemma {:induction false} LStripSuffix(s: string)
    ensures LStrip(s) == s[|s| - |LStrip(s)|..]
    decreases |s|
  {
    if s != [] && IsSpace(s[0]) {
      LStripSuffix(s[1..]);
      assert s[1..][|s| - 1 - |LStrip(s)|..] == s[|s| - |LStrip(s)|..];
    }
  }

  /** What `LStrip` removes is whitespace. */
  lemma {:induction false} LStripRemovesSpace(s: string)
    ensures AllSpace(s[..|s| - |LStrip(s)|])
    decreases |s|
  {
    if s != [] && IsSpace(s[0]) {
      LStripRemovesSpace(s[1..]);
      LStripSuffix(s);
      var n := |s| - |LStrip(s)|;
      assert s[..n] == [s[0]] + s[1..][..n - 1];
    }
  }

  function RStripSpace(s: string): (r: string)
    ensures |r| <= |s| && r == s[..|r|]
    ensures r == [] || !IsSpace(r[|r| - 1])
  {
    if s != [] && IsSpace(s[|s| - 1]) then RStripSpace(s[..|s| - 1]) else s
  }

  /** What `RStripSpace` removes is whitespace. */
  lemma {:induction false} RStripRemovesSpace(s: string)
    ensures AllSpace(s[|RStripSpace(s)|..])
    decreases |s|
  {
    if s != [] && IsSpace(s[|s| - 1]) {
      var r := RStripSpace(s);
      RStripRemovesSpace(s[..|s| - 1]);
      assert s[|r|..] == s[..|s| - 1][|r|..] + [s[|s| - 1]];
    }
  }

  /** `s.strip()`: `s` without its leading and trailing whitespace. */
  function Strip(s: string): (r: string)
    ensures Trimmed(r)
  {
    RStripSpace(LStrip(s))
  }

  /** Only an all-whitespace string strips to nothing. */
  lemma StripEmpty(s: string)
    ensures Strip(s) == [] <==> AllSpace(s)
  {
    StripIsInfix(s);
    var i := |s| - |LStrip(s)|;
    if Strip(s) == [] {
      assert s == s[..i] + s[i..];
      assert s[i + 0..] == s[i..];
    } else {
      assert s[i] == Strip(s)[0];
    }
  }

  /** `r` sits at position `i` of `s` and everything around it is whitespace. */
  predicate SurroundedBySpace(s: string, r: string, i: int) {
    0 <= i && i + |r| <= |s| && s[i..i + |r|] == r && AllSpace(s[..i]) && AllSpace(s[i + |r|..])
  }

  /** What `strip()` removes is whitespace, and only from the two ends. */
  lemma StripIsInfix(s: string)
    ensures SurroundedBySpace(s, Strip(s), |s| - |LStrip(s)|)
  {
    var l := LStrip(s);
    var r := RStripSpace(l);
    assert Strip(s) == r;
    LStripRemovesSpace(s);
    LStripSuffix(s);
    RStripRemovesSpace(l);
    InfixOfSuffix(s, l, r, |s| - |l|);
  }

  lemma InfixOfSuffix(s: string, l: string, r: string, i: int)
    requires 0 <= i <= |s| && l == s[i..] && AllSpace(s[..i])
    requires |r| <= |l| && r == l[..|r|] && AllSpace(l[|r|..])
    ensures SurroundedBySpace(s, r, i)
  {
    assert s[i..i + |r|] == r;
    assert s[i + |r|..] == l[|r|..];
  }

  /** Stripping is exactly the removal of whitespace padding around a trimmed string. */
  lemma {:induction false} StripPadded(pre: string, t: string, post: string)
    requires AllSpace(pre) && AllSpace(post) && Trimmed(t)
    ensures Strip(pre + t + post) == t
  {
    assert pre + t + post == pre + (t + post);
    if t == [] {
      assert AllSpace(pre + t + post);
      StripEmpty(pre + t + post);
    } else {
      LStripPadded(pre, t + post);
      RStripPadded(t, post);
    }
  }

  lemma {:induction false} LStripPadded(pre: string, t: string)
    requires AllSpace(pre) && (t == [] || !IsSpace(t[0]))
    ensures LStrip(pre + t) == t
    decreases |pre|
  {
    if pre != [] {
      assert (pre + t)[1..] == pre[1..] + t;
      LStripPadded(pre[1..], t);
    }
  }

  lemma {:induction false} RStripPadded(t: string, post: string)
    requires AllSpace(post) && (t == [] || !IsSpace(t[|t| - 1]))
    ensures RStripSpace(t + post) == t
    decreases |post|
  {
    if post != [] {
      assert (t + post)[..|t + post| - 1] == t + post[..|post| - 1];
      RStripPadded(t, post[..|post| - 1]);
    } else {
      assert t + post == t;
    }
  }

  /** A character absent from a string is absent from its stripped form. */
  lemma StripExcludes(s: string, c: char)
    requires c !in s
    ensures c !in Strip(s)
  {
    StripIsInfix(s);
    var i := |s| - |LStrip(s)|;
    var t := Strip(s);
    forall k | 0 <= k < |t| ensures t[k] != c {
      assert t[k] == s[i..i + |t|][k] == s[i + k];
    }
  }

  lemma StripTrimmed(t: string)
    requires Trimmed(t)
    ensures Strip(t) == t
  {
    assert LStrip(t) == t;
    assert RStripSpace(t) == t;
  }

  /** `s.rstrip(c)`: `s` without its trailing run of `c`. */
  function RStripChar(s: string, c: char): (r: string)
    ensures |r| <= |s| && r == s[..|r|]
    ensures forall k | |r| <= k < |s| :: s[k] == c
    ensures r == [] || r[|r| - 1] != c
  {
    if s != [] && s[|s| - 1] == c then RStripChar(s[..|s| - 1], c) else s
  }

  /** `rstrip(c)` leaves a string without `c` alone. */
  lemma RStripCharAbsent(s: string, c: char)
    requires c !in s
    ensures RStripChar(s, c) == s
  {
    if s != [] {
      assert s[|s| - 1] in s;
    }
  }

  // ---------------------------------------------------------------------------
  // split(sep) and join

  /** `sep.join(parts)`. */
  function Join(parts: seq<string>, sep: string): string {
    if parts == [] then []
    else if |parts| == 1 then parts[0]
    else parts[0] + sep + Join(parts[1..], sep)
  }

  function IndexOf(s: string, c: char): (i: nat)
    requires c in s
    ensures i < |s| && s[i] == c && c !in s[..i]
  {
    if s[0] == c then 0
    else
      assert c in s[1..] by {
        var k :| 0 <= k < |s| && s[k] == c;
        assert s[1..][k - 1] == c;
      }
      var j := IndexOf(s[1..], c);
      assert s[..j + 1] == [s[0]] + s[1..][..j];
      j + 1
  }

  /** `s.split(sep)` for a one-character separator: never empty, no part
      contains the separator, and joining the parts gives `s` back. */
  function Split(s: string, sep: char): (parts: seq<string>)
    ensures |parts| >= 1
    ensures forall i | 0 <= i < |parts| :: sep !in parts[i]
    ensures Join(parts, [sep]) == s
    decreases |s|
  {
    if sep !in s then [s]
    else
      var i := IndexOf(s, sep);
      var rest := Split(s[i + 1..], sep);
      assert s == s[..i] + [sep] + s[i + 1..];
      [s[..i]] + rest
  }

  lemma {:induction false} IndexOfJoin(a: string, sep: char, b: string)
    requires sep !in a
    ensures sep in a + [sep] + b && IndexOf(a + [sep] + b, sep) == |a|
    decreases |a|
  {
    var s := a + [sep] + b;
    assert s[|a|] == sep;
    if a != [] {
      assert s[1..] == a[1..] + [sep] + b;
      IndexOfJoin(a[1..], sep, b);
    }
  }

  lemma SplitJoinStep(parts: seq<string>, sep: char)
    requires |parts| >= 2 && sep !in parts[0]
    requires Split(Join(parts[1..], [sep]), sep) == parts[1..]
    ensures Split(Join(parts, [sep]), sep) == parts
  {
    var rest := Join(parts[1..], [sep]);
    var s := parts[0] + [sep] + rest;
    assert Join(parts, [sep]) == s;
    IndexOfJoin(parts[0], sep, rest);
    assert s[..|parts[0]|] == parts[0];
    assert s[|parts[0]| + 1..] == rest;
    assert parts == [parts[0]] + parts[1..];
  }

  /** Splitting a join of separator-free parts gives the parts back. */
  lemma {:induction false} SplitJoin(parts: seq<string>, sep: char)
    requires |parts| >= 1
    requires forall i | 0 <= i < |parts| :: sep !in parts[i]
    ensures Split(Join(parts, [sep]), sep) == parts
    decreases |parts|
  {
    if |parts| > 1 {
      SplitJoin(parts[1..], sep);
      SplitJoinStep(parts, sep);
    }
  }

  /** Splitting stops first at the first separator. */
  lemma SplitAtFirst(a: string, sep: char, b: string)
    requires sep !in a
    ensures Split(a + [sep] + b, sep) == [a] + Split(b, sep)
  {
    var s := a + [sep] + b;
    IndexOfJoin(a, sep, b);
    assert s[..|a|] == a;
    assert s[|a| + 1..] == b;
  }

  /** Joining two non-empty lists with a separator. */
  lemma {:induction false} JoinAppend(a: seq<string>, b: seq<string>, sep: string)
    requires a != [] && b != []
    ensures Join(a + b, sep) == Join(a, sep) + sep + Join(b, sep)
    decreases |a|
  {
    if |a| == 1 {
      assert (a + b)[1..] == b;
    } else {
      assert (a + b)[1..] == a[1..] + b;
      JoinAppend(a[1..], b, sep);
    }
  }

  // ---------------------------------------------------------------------------
  // split() on runs of whitespace

  /** Length of the leading run of non-whitespace characters. */
  function SpanNoSpace(s: string): (n: nat)
    ensures n <= |s| && NoSpace(s[..n]) && (n < |s| ==> IsSpace(s[n]))
  {
    if s == [] || IsSpace(s[0]) then 0
    else
      var n := SpanNoSpace(s[1..]);
      assert s[..n + 1] == [s[0]] + s[1..][..n];
      n + 1
  }

  /** `s.split()`: the maximal runs of non-whitespace characters, in order. */
  function SplitWs(s: string): (tokens: seq<string>)
    ensures forall k | 0 <= k < |tokens| :: tokens[k] != [] && NoSpace(tokens[k])
    decreases |s|
  {
    var t := LStrip(s);
    if t == [] then
      []
    else
      var n := SpanNoSpace(t);
      assert n != 0;
      var rest := SplitWs(t[n..]);
      [t[..n]] + rest
  }

  lemma SplitWsSpace(s: string)
    requires s != [] && IsSpace(s[0])
    ensures SplitWs(s) == SplitWs(s[1..])
  {
  }

  lemma SpanOfToken(a: string, b: string)
    requires NoSpace(a) && (b == [] || IsSpace(b[0]))
    ensures SpanNoSpace(a + b) == |a|
    decreases |a|
  {
    if a != [] {
      assert (a + b)[1..] == a[1..] + b;
      SpanOfToken(a[1..], b);
    }
  }

  lemma SplitWsCons(t: string, rest: string)
    requires t != [] && NoSpace(t) && (rest == [] || IsSpace(rest[0]))
    ensures SplitWs(t + rest) == [t] + SplitWs(rest)
  {
    var s := t + rest;
    assert LStrip(s) == s;
    SpanOfToken(t, rest);
    assert s[..|t|] == t && s[|t|..] == rest;
  }

  lemma SplitWsSingle(t: string)
    requires t != [] && NoSpace(t)
    ensures SplitWs(t) == [t]
  {
    SplitWsCons(t, []);
    assert t + [] == t;
    assert LStrip([]) == [];
  }

  lemma SplitWsTokenThenRest(t: string, tail: string)
    requires t != [] && NoSpace(t)
    ensures SplitWs(t + " " + tail) == [t] + SplitWs(tail)
  {
    var rest := " " + tail;
    assert t + " " + tail == t + rest;
    SplitWsCons(t, rest);
    SplitWsSpace(rest);
    assert rest[1..] == tail;
  }

  predicate IsToken(t: string) {
    t != [] && NoSpace(t)
  }

  lemma SplitWsEmpty()
    ensures SplitWs([]) == []
  {
    assert LStrip([]) == [];
  }

  lemma SplitWsJoinStep(tokens: seq<string>)
    requires |tokens| >= 2 && IsToken(tokens[0])
    requires SplitWs(Join(tokens[1..], " ")) == tokens[1..]
    ensures SplitWs(Join(tokens, " ")) == tokens
  {
    var tail := Join(tokens[1..], " ");
    assert Join(tokens, " ") == tokens[0] + " " + tail;
    SplitWsTokenThenRest(tokens[0], tail);
    assert tokens == [tokens[0]] + tokens[1..];
  }

  /** Splitting a single-space join of non-empty whitespace-free tokens gives them back. */
  lemma {:induction false} SplitWsJoin(tokens: seq<string>)
    requires forall k | 0 <= k < |tokens| :: IsToken(tokens[k])
    ensures SplitWs(Join(tokens, " ")) == tokens
    decreases |tokens|
  {
    if tokens == [] {
      SplitWsEmpty();
    } else if |tokens| == 1 {
      assert Join(tokens, " ") == tokens[0];
      SplitWsSingle(tokens[0]);
      assert tokens == [tokens[0]];
    } else {
      SplitWsJoin(tokens[1..]);
      SplitWsJoinStep(tokens);
    }
  }

  // ---------------------------------------------------------------------------
  // substring tests

  predicate StartsWith(s: string, prefix: string) {
    |prefix| <= |s| && s[..|prefix|] == prefix
  }

  predicate OccursAt(s: string, sub: string, i: int) {
    0 <= i && i + |sub| <= |s| && s[i..i + |sub|] == sub
  }

  /** Python's `sub in s` on strings. */
  function Contains(s: string, sub: string): bool
    decreases |s|
  {
    if StartsWith(s, sub) then true
    else if s == [] then false
    else Contains(s[1..], sub)
  }

  /** `sub in s` holds exactly when `sub` occurs at some position of `s`. */
  lemma {:induction false} ContainsOccurs(s: string, sub: string)
    ensures Contains(s, sub) <==> exists i :: OccursAt(s, sub, i)
    decreases |s|
  {
    if StartsWith(s, sub) {
      assert OccursAt(s, sub, 0);
    } else if s == [] {
      assert forall i | OccursAt(s, sub, i) :: i == 0;
    } else {
      ContainsOccurs(s[1..], sub);
      forall i | OccursAt(s[1..], sub, i) ensures OccursAt(s, sub, i + 1) {
        assert s[1..][i..i + |sub|] == s[i + 1..i + 1 + |sub|];
      }
      forall i | OccursAt(s, sub, i) ensures i >= 1 && OccursAt(s[1..], sub, i - 1) {
        assert OccursAt(s, sub, 0) ==> StartsWith(s, sub);
        assert s[1..][i - 1..i - 1 + |sub|] == s[i..i + |sub|];
      }
    }
  }

  // ---------------------------------------------------------------------------
  // digits, int() and str()

  predicate IsDigit(c: char) {
    '0' <= c <= '9'
  }

  /** `s.isdigit()` (and the regular expression `^\d+$`) on ASCII: non-empty, all digits. */
  predicate IsDigits(s: string) {
    s != [] && forall k | 0 <= k < |s| :: IsDigit(s[k])
  }

  function DigitValue(c: char): nat
    requires IsDigit(c)
  {
    (c as int) - ('0' as int)
  }

  function DigitChar(d: nat): (c: char)
    requires d < 10
    ensures IsDigit(c) && DigitValue(c) == d
  {
    (('0' as int) + d) as char
  }

  /** Decimal value of a string of digits. */
  function DigitsValue(s: string): nat
    requires forall k | 0 <= k < |s| :: IsDigit(s[k])
  {
    if s == [] then 0 else DigitsValue(s[..|s| - 1]) * 10 + DigitValue(s[|s| - 1])
  }

  /** Python's `str(n)` for `n >= 0`: the shortest decimal spelling of `n`. */
  function NatToString(n: nat): (s: string)
    ensures IsDigits(s) && DigitsValue(s) == n
    ensures s[0] == '0' ==> s == "0"
  {
    if n < 10 then [DigitChar(n)]
    else
      var s := NatToString(n / 10) + [DigitChar(n % 10)];
      assert s[..|s| - 1] == NatToString(n / 10);
      s
  }

  /** Python's `str(n)` for any integer. */
  function IntToString(n: int): string {
    if n < 0 then "-" + NatToString(-n) else NatToString(n)
  }

  /** What `int()` accepts once its argument has no surrounding whitespace:
      an optional sign followed by one or more digits. */
  predicate IsIntLiteral(s: string) {
    IsDigits(s) || (s != [] && (s[0] == '-' || s[0] == '+') && IsDigits(s[1..]))
  }

  /** Python's `int(s)` for a string without surrounding whitespace; `None` where Python raises. */
  function ParseInt(s: string): (r: Option<int>)
    ensures r.Some? <==> IsIntLiteral(s)
    ensures r.Some? && IsDigits(s) ==> r.value >= 0
  {
    if IsDigits(s) then Some(DigitsValue(s))
    else if s != [] && s[0] == '-' && IsDigits(s[1..]) then Some(0 - DigitsValue(s[1..]))
    else if s != [] && s[0] == '+' && IsDigits(s[1..]) then Some(DigitsValue(s[1..]))
    else None
  }

  /** `int(str(n)) == n`. */
  lemma ParseIntToString(n: int)
    ensures ParseInt(IntToString(n)) == Some(n)
  {
    if n < 0 {
      var s := IntToString(n);
      assert s[1..] == NatToString(-n);
      assert !IsDigits(s) by { assert !IsDigit(s[0]); }
    }
  }

  /** The decimal spelling of an integer is a single whitespace-free, comma-free token. */
  lemma IntToStringPlain(n: int)
    ensures IntToString(n) != [] && NoSpace(IntToString(n))
    ensures ',' !in IntToString(n) && '\n' !in IntToString(n) && ':' !in IntToString(n) && ';' !in IntToString(n)
  {
    var s := IntToString(n);
    if n < 0 {
      assert forall k | 1 <= k < |s| :: s[k] == NatToString(-n)[k - 1];
    }
  }
}
