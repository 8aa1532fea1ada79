/**
 The fragment of JavaScript regular expressions the contact form uses:
 anchored patterns built from single-character classes, each taken once,
 optionally (`?`) or any number of times (`*`). `Matches` is the language
 of a pattern; a pattern that `.test` accepts between `^` and `$` is one
 whose language holds the whole string.
 */
module Pattern {

  /** A single-character class. */
  datatype Class =
    | Lit(c: char)   // the character itself
    | Digit          // \d
    | Separator      // [- ]
    | Plain          // [^\s@]

  datatype Item = One(cls: Class) | Opt(cls: Class) | Star(cls: Class)

  /** `\s`: the white space and line terminators of ECMAScript. */
  predicate IsSpace(c: char) {
    || c == ' ' || c == '\t' || c == '\n' || c == '\r' || c == '\U{000B}' || c == '\U{000C}'
    || c == '\U{00A0}' || c == '\U{1680}' || ('\U{2000}' <= c <= '\U{200A}')
    || c == '\U{2028}' || c == '\U{2029}' || c == '\U{202F}' || c == '\U{205F}'
    || c == '\U{3000}' || c == '\U{FEFF}'
  }

  predicate IsDigit(c: char) {
    '0' <= c <= '9'
  }

  predicate InClass(c: char, cls: Class) {
    match cls
    case Lit(x) => c == x
    case Digit => IsDigit(c)
    case Separator => c == '-' || c == ' '
    case Plain => !IsSpace(c) && c != '@'
  }

  /** `s` is in the language of `p`. */
  function Matches(p: seq<Item>, s: string): bool
    decreases |p|, |s|
  {
    if |p| == 0 then |s| == 0
    else match p[0]
      case One(c) => |s| > 0 && InClass(s[0], c) && Matches(p[1..], s[1..])
      case Opt(c) => Matches(p[1..], s) || (|s| > 0 && InClass(s[0], c) && Matches(p[1..], s[1..]))
      case Star(c) => Matches(p[1..], s) || (|s| > 0 && InClass(s[0], c) && Matches(p, s[1..]))
  }

  /** Every character of `s` from `i` up to `j` is in `cls`. */
  predicate AllIn(s: string, i: int, j: int, cls: Class)
    requires 0 <= i <= j <= |s|
  {
    forall m :: i <= m < j ==> InClass(s[m], cls)
  }

  /** `n` digits start at position `i` of `s`. */
  predicate DigitsAt(s: string, i: int, n: nat) {
    0 <= i && i + n <= |s| && AllIn(s, i, i + n, Digit)
  }

  /** `\d{n}`. */
  function Digits(n: nat): (p: seq<Item>)
    ensures |p| == n && forall k :: 0 <= k < n ==> p[k] == One(Digit)
  {
    seq(n, _ => One(Digit))
  }

  /** The empty pattern matches the empty suffix only. */
  lemma EmptyAt(s: string, i: int)
    requires 0 <= i <= |s|
    ensures Matches([], s[i..]) <==> i == |s|
  {
  }

  /** A single character is taken from the front. */
  lemma OneAt(c: Class, q: seq<Item>, s: string, i: int)
    requires 0 <= i <= |s|
    ensures Matches([One(c)] + q, s[i..]) <==> i < |s| && InClass(s[i], c) && Matches(q, s[i + 1..])
  {
    assert ([One(c)] + q)[1..] == q;
    if i < |s| {
      assert s[i..][1..] == s[i + 1..];
    }
  }

  /** An optional character is taken from the front or skipped. */
  lemma OptAt(c: Class, q: seq<Item>, s: string, i: int)
    requires 0 <= i <= |s|
    ensures Matches([Opt(c)] + q, s[i..]) <==>
      Matches(q, s[i..]) || (i < |s| && InClass(s[i], c) && Matches(q, s[i + 1..]))
  {
    assert ([Opt(c)] + q)[1..] == q;
    if i < |s| {
      assert s[i..][1..] == s[i + 1..];
    }
  }

  /** A repeated class takes some run of characters from the front. */
  lemma {:induction false} StarAt(c: Class, q: seq<Item>, s: string, i: int)
    requires 0 <= i <= |s|
    ensures Matches([Star(c)] + q, s[i..]) <==>
      exists j :: i <= j <= |s| && AllIn(s, i, j, c) && Matches(q, s[j..])
    decreases |s| - i
  {
    var p := [Star(c)] + q;
    assert p[1..] == q;
    if i < |s| {
      assert s[i..][1..] == s[i + 1..];
      StarAt(c, q, s, i + 1);
      if Matches(p, s[i..]) && !Matches(q, s[i..]) {
        var j :| i + 1 <= j <= |s| && AllIn(s, i + 1, j, c) && Matches(q, s[j..]);
        assert AllIn(s, i, j, c);
      }
      if exists j :: i <= j <= |s| && AllIn(s, i, j, c) && Matches(q, s[j..]) {
        var j :| i <= j <= |s| && AllIn(s, i, j, c) && Matches(q, s[j..]);
        if j > i {
          assert AllIn(s, i + 1, j, c);
        }
      }
    }
  }

  /** `\d{n}` takes exactly `n` digits from the front. */
  lemma {:induction false} DigitsThen(n: nat, q: seq<Item>, s: string, i: int)
    requires 0 <= i <= |s|
    ensures Matches(Digits(n) + q, s[i..]) <==> DigitsAt(s, i, n) && Matches(q, s[i + n..])
  {
    if n == 0 {
      assert Digits(n) + q == q;
    } else {
      assert Digits(n) + q == [One(Digit)] + (Digits(n - 1) + q);
      OneAt(Digit, Digits(n - 1) + q, s, i);
      if i < |s| {
        DigitsThen(n - 1, q, s, i + 1);
        assert DigitsAt(s, i, n) <==> IsDigit(s[i]) && DigitsAt(s, i + 1, n - 1);
      }
    }
  }

  /** `c+`: one or more characters of a class. */
  function Plus(c: Class): seq<Item> {
    [One(c), Star(c)]
  }

  /** `c+` takes a non-empty run of characters from the front. */
  lemma PlusAt(c: Class, q: seq<Item>, s: string, i: int)
    requires 0 <= i <= |s|
    ensures Matches(Plus(c) + q, s[i..]) <==>
      exists k :: i < k <= |s| && AllIn(s, i, k, c) && Matches(q, s[k..])
  {
    assert Plus(c) + q == [One(c)] + ([Star(c)] + q);
    OneAt(c, [Star(c)] + q, s, i);
    if i < |s| {
      StarAt(c, q, s, i + 1);
      if exists k :: i < k <= |s| && AllIn(s, i, k, c) && Matches(q, s[k..]) {
        var k :| i < k <= |s| && AllIn(s, i, k, c) && Matches(q, s[k..]);
        assert AllIn(s, i + 1, k, c);
      }
    }
  }

  /** A run of digits starts with a digit. */
  lemma DigitsAtFirst(s: string, i: int, n: nat)
    requires DigitsAt(s, i, n) && n > 0
    ensures i < |s| && IsDigit(s[i])
  {
    assert InClass(s[i], Digit);
  }
}
