/** Searching an unused name for a variable set: base, then base with a numbered suffix. */
module FreshName {

  const LIMIT: int := 160
  const DIGITS: string := "0123456789"

  function Digits(n: nat): (s: string)
    ensures |s| > 0 && forall i :: 0 <= i < |s| ==> s[i] in DIGITS
  {
    if n < 10 then
      assert DIGITS[n] in DIGITS;
      [DIGITS[n]]
    else
      assert DIGITS[n % 10] in DIGITS;
      Digits(n / 10) + [DIGITS[n % 10]]
  }

  function Suffix(n: nat): string {
    " (" + Digits(n) + ")"
  }

  /** `s[:end]`, where a negative end counts from the back. */
  function Slice(s: string, end: int): string {
    if end >= |s| then s
    else if end >= 0 then s[..end]
    else if |s| + end >= 0 then s[..|s| + end]
    else ""
  }

  function Candidate(base: string, n: nat): string {
    Slice(base, LIMIT - |Suffix(n)|) + Suffix(n)
  }

  /** The requested name, already stripped of surrounding blanks. */
  function NormalizedBase(stripped: string): string {
    if Slice(stripped, LIMIT) == "" then "Environment" else Slice(stripped, LIMIT)
  }

  /** The first name of the sequence base, base (2), base (3), ... that is not taken. */
  ghost predicate FirstFree(existing: set<string>, stripped: string, name: string) {
    var base := NormalizedBase(stripped);
    && name !in existing
    && (name == base
        || (base in existing
            && exists k: nat :: k >= 2 && name == Candidate(base, k)
                 && forall j :: 2 <= j < k ==> Candidate(base, j) in existing))
  }

  /** The numbered candidates below `n`. */
  ghost function Tried(base: string, n: nat): set<string> {
    set j: nat | 2 <= j < n :: Candidate(base, j)
  }

  lemma TriedNext(base: string, n: nat)
    requires n >= 2
    ensures Tried(base, n + 1) == Tried(base, n) + {Candidate(base, n)}
    ensures Candidate(base, n) !in Tried(base, n)
  {
    forall j: nat | 2 <= j < n
      ensures Candidate(base, j) != Candidate(base, n)
    {
      CandidateInjective(base, j, n);
    }
  }

  /** Different numbers give different names, so there are as many as numbers. */
  lemma {:induction false} TriedSize(base: string, n: nat)
    requires n >= 2
    ensures |Tried(base, n)| == n - 2
  {
    if n == 2 {
      assert Tried(base, n) == {};
    } else {
      TriedSize(base, n - 1);
      TriedNext(base, n - 1);
    }
  }

  /** As long as every candidate so far is taken, at most as many as there are names. */
  lemma TriedBounded(existing: set<string>, base: string, n: nat)
    requires n >= 2 && Tried(base, n) <= existing
    ensures n - 2 <= |existing|
  {
    TriedSize(base, n);
    SubsetSize(Tried(base, n), existing);
  }

  method NextName(existing: set<string>, stripped: string) returns (name: string)
    ensures FirstFree(existing, stripped, name)
    ensures |name| <= LIMIT || exists k: nat :: k <= |existing| + 2 && |Suffix(k)| > LIMIT
  {
    var base := NormalizedBase(stripped);
    if base !in existing {
      return base;
    }
    var suffix: nat := 2;
    TriedBounded(existing, base, 2);
    while Candidate(base, suffix) in existing
      invariant suffix >= 2 && Tried(base, suffix) <= existing
      invariant suffix - 2 <= |existing|
      decreases |existing| + 2 - suffix
    {
      assert Tried(base, suffix + 1) == Tried(base, suffix) + {Candidate(base, suffix)};
      TriedBounded(existing, base, suffix + 1);
      suffix := suffix + 1;
    }
    name := Candidate(base, suffix);
    assert forall j: nat :: 2 <= j < suffix ==> Candidate(base, j) in Tried(base, suffix);
  }

  lemma {:induction false} SubsetSize(a: set<string>, b: set<string>)
    requires a <= b
    ensures |a| <= |b|
  {
    if a != {} {
      var x :| x in a;
      SubsetSize(a - {x}, b - {x});
    }
  }

  /** The number that a decimal numeral stands for. */
  function Value(s: string): nat {
    if s == [] then 0
    else 10 * Value(s[..|s| - 1]) + DigitValue(s[|s| - 1])
  }

  function DigitValue(c: char): nat {
    if '0' <= c <= '9' then (c - '0') as nat else 0
  }

  lemma ValueAppends(s: string, c: char)
    ensures Value(s + [c]) == 10 * Value(s) + DigitValue(c)
  {
    assert (s + [c])[..|s|] == s;
  }

  lemma DigitValueAt(d: nat)
    requires d < 10
    ensures DigitValue(DIGITS[d]) == d
  {
  }

  /** The numeral of a number stands for it, without leading zeros. */
  lemma {:induction false} DigitsValue(n: nat)
    ensures Value(Digits(n)) == n
    ensures n > 0 ==> Digits(n)[0] != '0'
  {
    DigitValueAt(n % 10);
    if n >= 10 {
      DigitsValue(n / 10);
      ValueAppends(Digits(n / 10), DIGITS[n % 10]);
    } else {
      ValueAppends([], DIGITS[n]);
    }
  }

  /** A numbered candidate is the base, cut only as far as needed, and the number in
      parentheses; it fills at most 160 characters when the number does. */
  lemma CandidateShape(base: string, n: nat)
    requires |base| <= 160 && |Digits(n)| <= 157
    ensures var c := Candidate(base, n);
            var kept := |c| - |Digits(n)| - 3;
            && 0 <= kept <= |base|
            && c == base[..kept] + " (" + Digits(n) + ")"
            && |c| == if |base| + |Digits(n)| + 3 <= 160 then |base| + |Digits(n)| + 3 else 160
  {
    CutToFit(base, Digits(n));
  }

  lemma CutToFit(base: string, digits: string)
    requires |base| <= 160 && |digits| <= 157
    ensures var suffix := " (" + digits + ")";
            var c := Slice(base, LIMIT - |suffix|) + suffix;
            var kept := |c| - |digits| - 3;
            && 0 <= kept <= |base|
            && c == base[..kept] + " (" + digits + ")"
            && |c| == if |base| + |digits| + 3 <= 160 then |base| + |digits| + 3 else 160
  {
    var suffix := " (" + digits + ")";
    assert |suffix| == |digits| + 3;
    var cut := Slice(base, LIMIT - |suffix|);
    assert cut == base[..|cut|];
    assert cut + suffix == base[..|cut|] + " (" + digits + ")";
  }

  /** The name asked for, cut at 160 characters, or a default if there is none. */
  lemma BaseExactly(stripped: string)
    ensures stripped == "" ==> NormalizedBase(stripped) == "Environment"
    ensures stripped != "" && |stripped| <= 160 ==> NormalizedBase(stripped) == stripped
    ensures |stripped| > 160 ==> NormalizedBase(stripped) == stripped[..160]
  {
  }

  /** Decimal notation is injective. */
  lemma DigitsInjective(a: nat, b: nat)
    requires Digits(a) == Digits(b)
    ensures a == b
  {
    DigitsValue(a);
    DigitsValue(b);
  }

  /** Counting from the end, the opening parenthesis is where the number stops. */
  lemma ParenthesisAt(x: string, s: string)
    requires forall i :: 0 <= i < |s| ==> s[i] != '('
    ensures var u := x + " (" + s + ")";
            && u[|u| - 2 - |s|] == '('
            && (forall k :: |u| - 1 - |s| <= k < |u| - 1 ==> u[k] != '(')
            && u[|u| - 1 - |s|..|u| - 1] == s
  {
    var u := x + " (" + s + ")";
    forall k | |u| - 1 - |s| <= k < |u| - 1
      ensures u[k] != '('
    {
      assert u[k] == s[k - (|u| - 1 - |s|)];
    }
    assert u[|u| - 1 - |s|..|u| - 1] == s;
  }

  /** Names that end in the same parenthesised number have the same number. */
  lemma SuffixDecides(x: string, y: string, s: string, t: string)
    requires forall i :: 0 <= i < |s| ==> s[i] != '('
    requires forall i :: 0 <= i < |t| ==> t[i] != '('
    requires x + " (" + s + ")" == y + " (" + t + ")"
    ensures s == t
  {
    ParenthesisAt(x, s);
    ParenthesisAt(y, t);
  }

  /** Different numbers give different candidates, however the base is cut. */
  lemma CandidateInjective(base: string, a: nat, b: nat)
    requires a != b
    ensures Candidate(base, a) != Candidate(base, b)
  {
    if Candidate(base, a) == Candidate(base, b) {
      var x, y := Slice(base, LIMIT - |Suffix(a)|), Slice(base, LIMIT - |Suffix(b)|);
      assert x + Suffix(a) == x + " (" + Digits(a) + ")";
      assert y + Suffix(b) == y + " (" + Digits(b) + ")";
      SuffixDecides(x, y, Digits(a), Digits(b));
      DigitsInjective(a, b);
    }
  }
}
