/**
 The byte strings that are hashed: a domain, a zero byte and the UTF-8 payload for the
 keyed references, and a colon-separated text for archival idempotency keys. Equal
 inputs to the hash come from equal meanings only.
 */
module HashInputs {
  import opened Utf8
  import opened Timestamps

  datatype Domain = MessageDomain | NetworkDomain | TurnCorrelation | UserReference | AccountDeletion

  function DomainName(d: Domain): string {
    match d
    case MessageDomain => "message"
    case NetworkDomain => "network"
    case TurnCorrelation => "turn-correlation"
    case UserReference => "user-reference"
    case AccountDeletion => "account-deletion"
  }

  /** An ASCII text as bytes. */
  function Ascii(s: string): seq<Byte>
    requires forall i :: 0 <= i < |s| ==> s[i] as int < 128
  {
    seq(|s|, i requires 0 <= i < |s| => s[i] as int as Byte)
  }

  lemma NamesArePlain(d: Domain)
    ensures forall i :: 0 <= i < |DomainName(d)| ==> 0 < DomainName(d)[i] as int < 128
  {
  }

  function HashInput(d: Domain, payload: string): seq<Byte> {
    NamesArePlain(d);
    Ascii(DomainName(d)) + [0] + Encode(payload)
  }

  lemma {:induction false} AsciiEncodes(s: string)
    requires forall i :: 0 <= i < |s| ==> s[i] as int < 128
    ensures Encode(s) == Ascii(s)
  {
    if s != "" {
      AsciiEncodes(s[1..]);
      assert Ascii(s) == [s[0] as int as Byte] + Ascii(s[1..]);
    }
  }

  /** What is hashed, as text: the purpose, a zero character and the payload. */
  lemma HashInputText(d: Domain, payload: string)
    ensures HashInput(d, payload) == Encode(
              match d {
                case MessageDomain => "message\U{0}" + payload
                case NetworkDomain => "network\U{0}" + payload
                case TurnCorrelation => "turn-correlation\U{0}" + payload
                case UserReference => "user-reference\U{0}" + payload
                case AccountDeletion => "account-deletion\U{0}" + payload
              })
  {
    hide Encode;
    NamesArePlain(d);
    AsciiEncodes(DomainName(d));
    AsciiEncodes("\U{0}");
    EncodeConcat(DomainName(d), "\U{0}");
    EncodeConcat(DomainName(d) + "\U{0}", payload);
    assert Ascii("\U{0}") == [0];
    assert "message" + "\U{0}" == "message\U{0}" && "network" + "\U{0}" == "network\U{0}"
             && "turn-correlation" + "\U{0}" == "turn-correlation\U{0}"
             && "user-reference" + "\U{0}" == "user-reference\U{0}"
             && "account-deletion" + "\U{0}" == "account-deletion\U{0}";
  }

  lemma NamesDiffer(d: Domain, e: Domain)
    requires DomainName(d) == DomainName(e)
    ensures d == e
  {
    assert "message"[0] == 'm' && "network"[0] == 'n' && "turn-correlation"[0] == 't'
        && "user-reference"[0] == 'u' && "account-deletion"[0] == 'a';
  }

  lemma FirstZero(a: seq<Byte>, x: seq<Byte>, s: seq<Byte>)
    requires s == a + [0] + x && forall i :: 0 <= i < |a| ==> a[i] != 0
    ensures |a| < |s| && s[|a|] == 0 && forall i :: 0 <= i < |a| ==> s[i] != 0
    ensures s[..|a|] == a && s[|a| + 1..] == x
  {
  }

  /** The first zero byte separates, when the parts before it have none. */
  lemma SplitAtZero(a: seq<Byte>, b: seq<Byte>, x: seq<Byte>, y: seq<Byte>)
    requires a + [0] + x == b + [0] + y
    requires (forall i :: 0 <= i < |a| ==> a[i] != 0) && (forall i :: 0 <= i < |b| ==> b[i] != 0)
    ensures a == b && x == y
  {
    var s := a + [0] + x;
    FirstZero(a, x, s);
    FirstZero(b, y, s);
    assert |a| == |b|;
  }

  /** No two purposes, and no two payloads of one purpose, share a hash input, zero bytes in payloads included. */
  lemma HashInputInjective(d: Domain, e: Domain, p: string, q: string)
    requires HashInput(d, p) == HashInput(e, q)
    ensures d == e && p == q
  {
    hide Encode, DomainName;
    NamesArePlain(d);
    NamesArePlain(e);
    var a, b := Ascii(DomainName(d)), Ascii(DomainName(e));
    SplitAtZero(a, b, Encode(p), Encode(q));
    EncodeInjective(p, q);
    assert |DomainName(d)| == |DomainName(e)|;
    forall i | 0 <= i < |DomainName(d)| ensures DomainName(d)[i] == DomainName(e)[i] {
      assert a[i] == b[i];
    }
    assert DomainName(d) == DomainName(e);
    NamesDiffer(d, e);
  }

  // ----- archival idempotency keys

  function Digits(n: nat): string {
    if n < 10 then [Digit(n)] else Digits(n / 10) + [Digit(n % 10)]
  }

  /** `str` of an integer. */
  function Decimal(n: int): string {
    if n < 0 then "-" + Digits(-n) else Digits(n)
  }

  function IdempotencyInput(user: string, logId: int, version: int): string {
    user + ":" + Decimal(logId) + ":" + Decimal(version)
  }

  predicate Numeric(s: string) {
    forall i :: 0 <= i < |s| ==> '0' <= s[i] <= '9' || s[i] == '-'
  }

  lemma {:induction false} DigitsShape(n: nat)
    ensures |Digits(n)| >= 1 && forall i :: 0 <= i < |Digits(n)| ==> '0' <= Digits(n)[i] <= '9'
  {
    if n >= 10 {
      DigitsShape(n / 10);
    }
  }

  lemma DecimalShape(n: int)
    ensures Numeric(Decimal(n))
  {
    DigitsShape(if n < 0 then -n else n);
  }

  lemma {:induction false} ValueOfDigits(n: nat)
    ensures Value(Digits(n)) == n
  {
    if n < 10 {
      assert Digits(n)[..0] == "";
    } else {
      ValueOfDigits(n / 10);
      assert Digits(n)[..|Digits(n)| - 1] == Digits(n / 10);
    }
  }

  lemma DigitsInjective(m: nat, n: nat)
    requires Digits(m) == Digits(n)
    ensures m == n
  {
    ValueOfDigits(m);
    ValueOfDigits(n);
  }

  lemma DecimalSign(n: int)
    ensures Decimal(n) != "" && (Decimal(n)[0] == '-' <==> n < 0)
    ensures n < 0 ==> Decimal(n)[1..] == Digits(-n)
  {
    DigitsShape(if n < 0 then -n else n);
  }

  lemma DecimalInjective(m: int, n: int)
    requires Decimal(m) == Decimal(n)
    ensures m == n
  {
    DecimalSign(m);
    DecimalSign(n);
    if m < 0 {
      DigitsInjective(-m, -n);
    } else {
      DigitsInjective(m, n);
    }
  }

  lemma LastColon(a: string, x: string, s: string)
    requires s == a + ":" + x && Numeric(x)
    ensures |a| < |s| && s[|a|] == ':' && forall i :: |a| < i < |s| ==> s[i] != ':'
    ensures s[..|a|] == a && s[|a| + 1..] == x
  {
    forall i | |a| < i < |s| ensures s[i] != ':' {
      assert s[i] == x[i - |a| - 1];
    }
  }

  /** The last colon separates, when no colon follows it. */
  lemma SplitAtLastColon(a: string, b: string, x: string, y: string)
    requires a + ":" + x == b + ":" + y && Numeric(x) && Numeric(y)
    ensures a == b && x == y
  {
    hide Numeric;
    var s := a + ":" + x;
    LastColon(a, x, s);
    LastColon(b, y, s);
    assert |a| == |b|;
  }

  /** Even if user ids contain colons or digits, the text determines all three of its parts. */
  lemma IdempotencyInputInjective(u: string, v: string, i: int, j: int, m: int, n: int)
    requires IdempotencyInput(u, i, m) == IdempotencyInput(v, j, n)
    ensures u == v && i == j && m == n
  {
    hide Decimal, Numeric;
    DecimalShape(i);
    DecimalShape(j);
    DecimalShape(m);
    DecimalShape(n);
    SplitAtLastColon(u + ":" + Decimal(i), v + ":" + Decimal(j), Decimal(m), Decimal(n));
    SplitAtLastColon(u, v, Decimal(i), Decimal(j));
    DecimalInjective(i, j);
    DecimalInjective(m, n);
  }

  /** A key as it is written. */
  lemma AnIdempotencyInput()
    ensures IdempotencyInput("u", 12, -3) == "u:12:-3"
  {
    assert Digits(12) == Digits(1) + [Digit(2)] == "12";
    assert Digits(3) == "3";
    assert Decimal(-3) == "-3";
  }
}
