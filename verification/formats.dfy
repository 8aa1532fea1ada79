/**
 The two regular expressions of the contact form, transcribed item by item
 into `Pattern`, each with a second, independent description of the
 strings it accepts and a proof that the two agree.
 */
module Formats {
  import opened Pattern

  // ---------------------------------------------------------------------
  // E-mail: ^[^\s@]+@[^\s@]+\.[^\s@]+$
  // ---------------------------------------------------------------------

  /** `[^\s@]+` at the end of the address. */
  const EmailTld: seq<Item> := Plus(Plain) + []
  /** `[^\s@]+\.[^\s@]+` after the `@`. */
  const EmailDomain: seq<Item> := Plus(Plain) + ([One(Lit('.'))] + EmailTld)
  const EmailPattern: seq<Item> := Plus(Plain) + ([One(Lit('@'))] + EmailDomain)

  predicate IsEmail(v: string) {
    Matches(EmailPattern, v)
  }

  /**
   From position `j` on, `v` reads `B.C` with the `.` at `b`, where `B` and
   `C` are non-empty and hold neither white space nor `@`.
   */
  predicate DomainSplit(v: string, j: int, b: int) {
    && 0 <= j < b && b + 1 < |v| && v[b] == '.'
    && AllIn(v, j, b, Plain) && AllIn(v, b + 1, |v|, Plain)
  }

  /** `v` reads `A@B.C` with the `@` at `a` and the `.` at `b`. */
  predicate EmailSplit(v: string, a: int, b: int) {
    0 < a < |v| && v[a] == '@' && AllIn(v, 0, a, Plain) && DomainSplit(v, a + 1, b)
  }

  /**
   An address of the form `A@B.C`, where `A`, `B` and `C` are non-empty
   and hold neither white space nor `@`.
   */
  ghost predicate EmailShape(v: string) {
    exists a, b :: EmailSplit(v, a, b)
  }

  lemma EmailTldAt(v: string, j: int)
    requires 0 <= j <= |v|
    ensures Matches(EmailTld, v[j..]) <==> j < |v| && AllIn(v, j, |v|, Plain)
  {
    PlusAt(Plain, [], v, j);
    EmptyAt(v, |v|);
    if Matches(EmailTld, v[j..]) {
      var k :| j < k <= |v| && AllIn(v, j, k, Plain) && Matches([], v[k..]);
      EmptyAt(v, k);
    }
  }

  lemma EmailDomainAt(v: string, j: int)
    requires 0 <= j <= |v|
    ensures Matches(EmailDomain, v[j..]) <==> exists b :: DomainSplit(v, j, b)
  {
    PlusAt(Plain, [One(Lit('.'))] + EmailTld, v, j);
    if Matches(EmailDomain, v[j..]) {
      var b :| j < b <= |v| && AllIn(v, j, b, Plain) && Matches([One(Lit('.'))] + EmailTld, v[b..]);
      OneAt(Lit('.'), EmailTld, v, b);
      EmailTldAt(v, b + 1);
      assert DomainSplit(v, j, b);
    }
    if exists b :: DomainSplit(v, j, b) {
      var b :| DomainSplit(v, j, b);
      EmailTldAt(v, b + 1);
      OneAt(Lit('.'), EmailTld, v, b);
    }
  }

  /** The e-mail pattern accepts exactly the strings of the form `A@B.C`. */
  lemma EmailPatternIff(v: string)
    ensures IsEmail(v) <==> EmailShape(v)
  {
    assert v[0..] == v;
    PlusAt(Plain, [One(Lit('@'))] + EmailDomain, v, 0);
    if IsEmail(v) {
      var a :| 0 < a <= |v| && AllIn(v, 0, a, Plain) && Matches([One(Lit('@'))] + EmailDomain, v[a..]);
      OneAt(Lit('@'), EmailDomain, v, a);
      EmailDomainAt(v, a + 1);
      var b :| DomainSplit(v, a + 1, b);
      assert EmailSplit(v, a, b);
    }
    if EmailShape(v) {
      var a, b :| EmailSplit(v, a, b);
      EmailDomainAt(v, a + 1);
      OneAt(Lit('@'), EmailDomain, v, a);
    }
  }

  // ---------------------------------------------------------------------
  // Phone: ^(\+\d{1,3}[- ]?)?\(?\d{3}\)?[- ]?\d{3}[- ]?\d{4}$
  // ---------------------------------------------------------------------

  /** `\d{4}` */
  const Line: seq<Item> := Digits(4)
  /** `[- ]?\d{4}` */
  const SepLine: seq<Item> := [Opt(Separator)] + Line
  /** `\d{3}[- ]?\d{4}` */
  const Exchange: seq<Item> := Digits(3) + SepLine
  /** `[- ]?\d{3}[- ]?\d{4}` */
  const SepExchange: seq<Item> := [Opt(Separator)] + Exchange
  /** `\)?[- ]?\d{3}[- ]?\d{4}` */
  const AfterArea: seq<Item> := [Opt(Lit(')'))] + SepExchange
  /** `\d{3}\)?[- ]?\d{3}[- ]?\d{4}` */
  const AreaOn: seq<Item> := Digits(3) + AfterArea
  /** `\(?\d{3}\)?[- ]?\d{3}[- ]?\d{4}`: the number without country code. */
  const LocalPattern: seq<Item> := [Opt(Lit('('))] + AreaOn
  /** `[- ]?` before the local number. */
  const CountrySep: seq<Item> := [Opt(Separator)] + LocalPattern
  /** The second and third country-code digits, both optional. */
  const CountryTail: seq<Item> := [Opt(Digit)] + ([Opt(Digit)] + CountrySep)
  /** `\+\d{1,3}[- ]?` followed by the local number. */
  const IntlPattern: seq<Item> := [One(Lit('+'))] + ([One(Digit)] + CountryTail)

  /** The optional group `(\+\d{1,3}[- ]?)?` is either absent or present. */
  predicate IsPhone(v: string) {
    Matches(LocalPattern, v) || Matches(IntlPattern, v)
  }

  /** The position after an optional character of class `cls` at `i`. */
  function Skip(v: string, i: int, cls: Class): (j: int)
    requires 0 <= i <= |v|
    ensures i <= j <= |v|
  {
    if i < |v| && InClass(v[i], cls) then i + 1 else i
  }

  /** `\d{4}` ends the string at `k`. */
  predicate LineFrom(v: string, k: int) {
    DigitsAt(v, k, 4) && k + 4 == |v|
  }

  /** `\d{3}[- ]?\d{4}` from `k` to the end, optional separator taken when present. */
  predicate ExchangeFrom(v: string, k: int)
    requires 0 <= k <= |v|
  {
    DigitsAt(v, k, 3) && LineFrom(v, Skip(v, k + 3, Separator))
  }

  /** `\d{3}\)?[- ]?` followed by the exchange and line, read the same way. */
  predicate AreaFrom(v: string, k: int)
    requires 0 <= k <= |v|
  {
    DigitsAt(v, k, 3) && ExchangeFrom(v, Skip(v, Skip(v, k + 3, Lit(')')), Separator))
  }

  /**
   The local number read left to right without backtracking: an optional
   `(`, three digits, an optional `)`, an optional separator, three
   digits, an optional separator and four digits that end the string.
   Every optional character is taken whenever it is there.
   */
  predicate LocalFrom(v: string, i: int)
    requires 0 <= i <= |v|
  {
    AreaFrom(v, Skip(v, i, Lit('(')))
  }

  /**
   A phone number: a local number, or `+` with one to three digits, an
   optional separator and a local number.
   */
  predicate PhoneShape(v: string) {
    || LocalFrom(v, 0)
    || (0 < |v| && v[0] == '+'
        && exists n :: 1 <= n <= 3 && DigitsAt(v, 1, n) && LocalFrom(v, Skip(v, 1 + n, Separator)))
  }

  lemma LineAt(v: string, j: int)
    requires 0 <= j <= |v|
    ensures Matches(Line, v[j..]) <==> LineFrom(v, j)
  {
    assert Line == Digits(4) + [];
    DigitsThen(4, [], v, j);
    if j + 4 <= |v| {
      EmptyAt(v, j + 4);
    }
  }

  lemma SepLineAt(v: string, j: int)
    requires 0 <= j <= |v|
    ensures Matches(SepLine, v[j..]) <==> LineFrom(v, Skip(v, j, Separator))
  {
    OptAt(Separator, Line, v, j);
    LineAt(v, j);
    if j < |v| {
      LineAt(v, j + 1);
      if LineFrom(v, j) {
        DigitsAtFirst(v, j, 4);
      }
    }
  }

  lemma ExchangeAt(v: string, j: int)
    requires 0 <= j <= |v|
    ensures Matches(Exchange, v[j..]) <==> ExchangeFrom(v, j)
  {
    DigitsThen(3, SepLine, v, j);
    if j + 3 <= |v| {
      SepLineAt(v, j + 3);
    }
  }

  lemma SepExchangeAt(v: string, j: int)
    requires 0 <= j <= |v|
    ensures Matches(SepExchange, v[j..]) <==> ExchangeFrom(v, Skip(v, j, Separator))
  {
    OptAt(Separator, Exchange, v, j);
    ExchangeAt(v, j);
    if j < |v| {
      ExchangeAt(v, j + 1);
      if ExchangeFrom(v, j) {
        DigitsAtFirst(v, j, 3);
      }
    }
  }

  lemma AfterAreaAt(v: string, j: int)
    requires 0 <= j <= |v|
    ensures Matches(AfterArea, v[j..]) <==> ExchangeFrom(v, Skip(v, Skip(v, j, Lit(')')), Separator))
  {
    OptAt(Lit(')'), SepExchange, v, j);
    SepExchangeAt(v, j);
    if j < |v| {
      SepExchangeAt(v, j + 1);
      if ExchangeFrom(v, Skip(v, j, Separator)) {
        DigitsAtFirst(v, Skip(v, j, Separator), 3);
      }
    }
  }

  lemma AreaOnAt(v: string, j: int)
    requires 0 <= j <= |v|
    ensures Matches(AreaOn, v[j..]) <==> AreaFrom(v, j)
  {
    DigitsThen(3, AfterArea, v, j);
    if j + 3 <= |v| {
      AfterAreaAt(v, j + 3);
    }
  }

  /** The local part of the pattern accepts the suffix from `i` exactly when the scan does. */
  lemma LocalAt(v: string, i: int)
    requires 0 <= i <= |v|
    ensures Matches(LocalPattern, v[i..]) <==> LocalFrom(v, i)
  {
    OptAt(Lit('('), AreaOn, v, i);
    AreaOnAt(v, i);
    if i < |v| {
      AreaOnAt(v, i + 1);
      if AreaFrom(v, i) {
        DigitsAtFirst(v, i, 3);
      }
    }
  }

  lemma CountrySepAt(v: string, j: int)
    requires 0 <= j <= |v|
    ensures Matches(CountrySep, v[j..]) <==> LocalFrom(v, Skip(v, j, Separator))
  {
    OptAt(Separator, LocalPattern, v, j);
    LocalAt(v, j);
    if j < |v| {
      LocalAt(v, j + 1);
      if LocalFrom(v, j) {
        DigitsAtFirst(v, Skip(v, j, Lit('(')), 3);
      }
    }
  }

  /** The international form: `+`, one to three digits, then as the scan reads it. */
  lemma IntlAt(v: string)
    ensures Matches(IntlPattern, v) <==>
      0 < |v| && v[0] == '+'
      && exists n :: 1 <= n <= 3 && DigitsAt(v, 1, n) && LocalFrom(v, Skip(v, 1 + n, Separator))
  {
    assert v[0..] == v;
    OneAt(Lit('+'), [One(Digit)] + CountryTail, v, 0);
    if 1 <= |v| {
      OneAt(Digit, CountryTail, v, 1);
      if 2 <= |v| {
        OptAt(Digit, [Opt(Digit)] + CountrySep, v, 2);
        OptAt(Digit, CountrySep, v, 2);
        CountrySepAt(v, 2);
        if 3 <= |v| {
          OptAt(Digit, CountrySep, v, 3);
          CountrySepAt(v, 3);
          if 4 <= |v| {
            CountrySepAt(v, 4);
          }
        }
      }
    }
    assert DigitsAt(v, 1, 1) <==> 2 <= |v| && IsDigit(v[1]);
    assert DigitsAt(v, 1, 2) <==> 3 <= |v| && IsDigit(v[1]) && IsDigit(v[2]);
    assert DigitsAt(v, 1, 3) <==> 4 <= |v| && IsDigit(v[1]) && IsDigit(v[2]) && IsDigit(v[3]);
  }

  /** The phone pattern accepts exactly the strings the left-to-right scan accepts. */
  lemma PhonePatternIff(v: string)
    ensures IsPhone(v) <==> PhoneShape(v)
  {
    assert v[0..] == v;
    LocalAt(v, 0);
    IntlAt(v);
  }
}
