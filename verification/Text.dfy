/** The string-library operations the models share. Characters are code points. */
module Text {

  /** Unicode white space, as the library's trimming and field splitting see it. */
  predicate IsSpace(c: char) {
    || '\t' <= c <= '\r' || c == ' ' || c == '\U{85}' || c == '\U{A0}' || c == '\U{1680}'
    || '\U{2000}' <= c <= '\U{200A}' || c == '\U{2028}' || c == '\U{2029}' || c == '\U{202F}'
    || c == '\U{205F}' || c == '\U{3000}'
  }

  predicate IsDigit(c: char) { '0' <= c <= '9' }

  predicate NotDigit(c: char) { !IsDigit(c) }

  /** No character of s satisfies p. */
  ghost predicate Free(s: string, p: char -> bool) {
    forall i :: 0 <= i < |s| ==> !p(s[i])
  }

  function TrimLeft(s: string): string {
    if s != "" && IsSpace(s[0]) then TrimLeft(s[1..]) else s
  }

  function TrimRight(s: string): string {
    if s != "" && IsSpace(s[|s| - 1]) then TrimRight(s[..|s| - 1]) else s
  }

  function Trim(s: string): string { TrimRight(TrimLeft(s)) }

  function TrimPrefix(s: string, c: char): string {
    if s != "" && s[0] == c then s[1..] else s
  }

  /** The longest prefix of s with no character satisfying stop. */
  function TakeUntil(s: string, stop: char -> bool): (r: string)
    ensures r <= s && Free(r, stop)
    ensures |r| < |s| ==> stop(s[|r|])
  {
    if s == "" || stop(s[0]) then "" else [s[0]] + TakeUntil(s[1..], stop)
  }

  lemma TakeNothing(s: string, stop: char -> bool)
    requires s != "" && stop(s[0])
    ensures TakeUntil(s, stop) == ""
  {}

  lemma {:induction false} TakeUntilAppend(s: string, t: string, stop: char -> bool)
    requires Free(s, stop)
    ensures TakeUntil(s + t, stop) == s + TakeUntil(t, stop)
  {
    if s == "" {
      assert s + t == t;
    } else {
      assert (s + t)[1..] == s[1..] + t;
      TakeUntilAppend(s[1..], t, stop);
    }
  }

  lemma {:induction false} TrimRightAppend(s: string, t: string)
    requires s != "" && !IsSpace(s[|s| - 1])
    ensures TrimRight(s + t) == s + TrimRight(t)
    decreases |t|
  {
    if t == "" {
      assert s + t == s;
    } else {
      assert (s + t)[..|s + t| - 1] == s + t[..|t| - 1];
      if IsSpace(t[|t| - 1]) { TrimRightAppend(s, t[..|t| - 1]); }
    }
  }

  lemma {:induction false} TrimRightPrefix(s: string)
    ensures TrimRight(s) <= s
  {
    if s != "" && IsSpace(s[|s| - 1]) { TrimRightPrefix(s[..|s| - 1]); }
  }

  ghost predicate AllSpace(s: string) { forall i :: 0 <= i < |s| ==> IsSpace(s[i]) }

  /** Trimming takes white space off both ends, all of it and nothing else. */
  lemma TrimSplits(s: string) returns (left: string, right: string)
    ensures s == left + (Trim(s) + right) && AllSpace(left) && AllSpace(right)
    ensures var t := Trim(s); t != "" ==> !IsSpace(t[0]) && !IsSpace(t[|t| - 1])
  {
    left := LeftSplits(s);
    right := RightSplits(TrimLeft(s));
    assert s == left + (Trim(s) + right);
    if Trim(s) != "" { assert Trim(s)[0] == TrimLeft(s)[0]; }
  }

  lemma {:induction false} LeftSplits(s: string) returns (left: string)
    ensures s == left + TrimLeft(s) && AllSpace(left)
    ensures TrimLeft(s) != "" ==> !IsSpace(TrimLeft(s)[0])
  {
    if s == "" || !IsSpace(s[0]) {
      left := "";
    } else {
      left := LeftSplits(s[1..]);
      left := [s[0]] + left;
      assert s == [s[0]] + s[1..];
    }
  }

  lemma {:induction false} RightSplits(s: string) returns (right: string)
    ensures s == TrimRight(s) + right && AllSpace(right)
    ensures TrimRight(s) != "" ==> !IsSpace(TrimRight(s)[|TrimRight(s)| - 1])
  {
    if s == "" || !IsSpace(s[|s| - 1]) {
      right := "";
    } else {
      var front, last := s[..|s| - 1], [s[|s| - 1]];
      right := RightSplits(front);
      assert s == front + last && TrimRight(front) + right + last == TrimRight(front) + (right + last);
      right := right + last;
    }
  }

  /** There is only one way to trim. */
  lemma {:induction false} TrimUnique(left: string, t: string, right: string)
    requires AllSpace(left) && AllSpace(right) && (t != "" ==> !IsSpace(t[0]) && !IsSpace(t[|t| - 1]))
    ensures Trim(left + (t + right)) == t
  {
    TrimLeftDrops(left, t + right);
    if t == "" {
      assert t + right == right;
      TrimLeftDrops(right, "");
      assert right + "" == right;
    } else {
      assert TrimLeft(t + right) == t + right;
      TrimRightAppend(t, right);
      TrimRightDrops(right);
      assert t + "" == t;
    }
  }

  lemma {:induction false} TrimLeftDrops(left: string, rest: string)
    requires AllSpace(left)
    ensures TrimLeft(left + rest) == TrimLeft(rest)
  {
    if left == "" {
      assert left + rest == rest;
    } else {
      assert (left + rest)[0] == left[0] && (left + rest)[1..] == left[1..] + rest;
      TrimLeftDrops(left[1..], rest);
    }
  }

  lemma {:induction false} TrimRightDrops(right: string)
    requires AllSpace(right)
    ensures TrimRight(right) == ""
  {
    if right == "" {
    } else {
      assert IsSpace(right[|right| - 1]);
      TrimRightDrops(right[..|right| - 1]);
    }
  }

  function Decimal(n: nat): (s: string)
    ensures s != "" && Free(s, NotDigit)
  {
    var last := ['0' + (n % 10) as char];
    if n < 10 then last else Decimal(n / 10) + last
  }

  /** One more digit is ten times as much and that digit. */
  lemma DecimalShifts(n: nat, d: nat)
    requires d < 10
    ensures Decimal(10 * n + d) == (if n == 0 then "" else Decimal(n)) + ["0123456789"[d]]
  {
    assert (10 * n + d) / 10 == n && (10 * n + d) % 10 == d;
    assert "0123456789"[d] == '0' + d as char;
  }

  /** The number a digit string denotes. */
  function Value(s: string): nat
    requires Free(s, NotDigit)
  {
    if s == "" then 0
    else assert IsDigit(s[|s| - 1]); Value(s[..|s| - 1]) * 10 + (s[|s| - 1] - '0') as nat
  }

  lemma {:induction false} ValueOfDecimal(n: nat)
    ensures Value(Decimal(n)) == n
  {
    var s := Decimal(n);
    if n >= 10 {
      assert s[..|s| - 1] == Decimal(n / 10);
      ValueOfDecimal(n / 10);
    } else {
      assert s[..|s| - 1] == "";
    }
    assert s[|s| - 1] == '0' + (n % 10) as char;
    assert s[|s| - 1] as int == '0' as int + n % 10;
  }
}
