/** Claim ids: `c-0007@2` is version 2 of claim 7. */
module Ids {
  import opened Wrappers

  predicate IsDigit(c: char) {
    '0' <= c <= '9'
  }

  predicate AllDigits(s: string) {
    forall i | 0 <= i < |s| :: IsDigit(s[i])
  }

  function Digit(n: nat): char
    requires n < 10
  {
    '0' + n as char
  }

  function Decimal(n: nat): (s: string)
    ensures s != "" && AllDigits(s)
  {
    if n < 10 then [Digit(n)] else Decimal(n / 10) + [Digit(n % 10)]
  }

  /** `str(n)`. */
  function IntText(n: int): (s: string)
    ensures s != "" && AllDigits(s[1..])
  {
    if n < 0 then "-" + Decimal(-n) else Decimal(n)
  }

  function Number(s: string): nat
    requires AllDigits(s)
  {
    if s == "" then 0 else 10 * Number(s[..|s| - 1]) + (s[|s| - 1] - '0') as nat
  }

  /** Zero-filled to `width`, as the format `0<width>d` does. */
  function ZeroFilled(s: string, width: nat): (r: string)
    requires AllDigits(s)
    ensures AllDigits(r) && |r| >= width && |r| >= |s|
    decreases width - |s|
  {
    if |s| >= width then s else ZeroFilled("0" + s, width)
  }

  function FormatClaimId(n: nat, version: nat): string {
    "c-" + ZeroFilled(Decimal(n), 4) + "@" + Decimal(version)
  }

  function IndexOfAt(s: string): (i: nat)
    ensures i <= |s| && '@' !in s[..i] && (i < |s| ==> s[i] == '@')
  {
    if s == "" || s[0] == '@' then 0 else 1 + IndexOfAt(s[1..])
  }

  /** The two digit strings of an id that matches `c-([0-9]{4,})@([0-9]+)` whole. */
  function Groups(cid: string): Option<(string, string)> {
    if !("c-" <= cid) then None
    else
      var body := cid[2..];
      var at := IndexOfAt(body);
      if at == |body| then None
      else
        var number, version := body[..at], body[at + 1..];
        if |number| >= 4 && AllDigits(number) && |version| >= 1 && AllDigits(version)
        then Some((number, version)) else None
  }

  lemma GroupsAreParts(cid: string)
    ensures match Groups(cid)
      case None => true
      case Some((number, version)) =>
        AllDigits(number) && AllDigits(version) && |number| >= 4 && |version| >= 1
        && cid == "c-" + number + "@" + version
  {
  }

  function ParseClaimId(cid: string): Option<(nat, nat)> {
    match Groups(cid)
    case None => None
    case Some((number, version)) => Some((Number(number), Number(version)))
  }

  function BumpClaimId(cid: string): Option<string> {
    match ParseClaimId(cid)
    case None => None
    case Some((n, version)) => Some(FormatClaimId(n, version + 1))
  }

  // ---------- formatting and parsing undo each other ----------

  lemma {:induction false} NumberOfDecimal(n: nat)
    ensures Number(Decimal(n)) == n
  {
    if n < 10 {
      assert Decimal(n)[..0] == "";
    } else {
      NumberOfDecimal(n / 10);
      assert Decimal(n)[..|Decimal(n)| - 1] == Decimal(n / 10);
    }
  }

  lemma {:induction false} LeadingZero(s: string)
    requires AllDigits(s)
    ensures AllDigits("0" + s) && Number("0" + s) == Number(s)
  {
    if s == "" {
      assert ("0" + s)[..0] == "";
    } else {
      LeadingZero(s[..|s| - 1]);
      assert ("0" + s)[..|s|] == "0" + s[..|s| - 1];
    }
  }

  lemma {:induction false} NumberOfZeroFilled(s: string, width: nat)
    requires AllDigits(s)
    ensures Number(ZeroFilled(s, width)) == Number(s)
    decreases width - |s|
  {
    if |s| < width {
      LeadingZero(s);
      NumberOfZeroFilled("0" + s, width);
    }
  }

  lemma GroupsOf(number: string, version: string)
    requires AllDigits(number) && AllDigits(version) && |number| >= 4 && |version| >= 1
    ensures Groups("c-" + number + "@" + version) == Some((number, version))
  {
    var cid := "c-" + number + "@" + version;
    var body := cid[2..];
    assert body == number + "@" + version;
    var at := IndexOfAt(body);
    assert body[|number|] == '@';
    assert forall k | 0 <= k < |number| :: IsDigit(body[k]);
    assert forall k | 0 <= k < at :: body[k] in body[..at];
    assert at == |number|;
    assert body[..at] == number && body[at + 1..] == version;
  }

  /** Every minted id reads back as what it was minted from. */
  lemma ParseInvertsFormat(n: nat, version: nat)
    ensures ParseClaimId(FormatClaimId(n, version)) == Some((n, version))
  {
    GroupsOf(ZeroFilled(Decimal(n), 4), Decimal(version));
    NumberOfZeroFilled(Decimal(n), 4);
    NumberOfDecimal(n);
    NumberOfDecimal(version);
  }

  /** A bumped id is the next version of the same claim. */
  lemma BumpRaisesVersion(cid: string)
    ensures match (ParseClaimId(cid), BumpClaimId(cid))
      case (Some((n, version)), Some(bumped)) => ParseClaimId(bumped) == Some((n, version + 1))
      case (None, None) => true
      case _ => false
  {
    if ParseClaimId(cid).Some? {
      var (n, version) := ParseClaimId(cid).value;
      ParseInvertsFormat(n, version + 1);
    }
  }

  lemma LastDigit(n: nat, last: nat)
    requires n > 0 && last < 10
    ensures Decimal(10 * n + last) == Decimal(n) + [Digit(last)]
  {
    assert (10 * n + last) / 10 == n && (10 * n + last) % 10 == last;
  }

  lemma {:induction false} DecimalOfNumber(s: string)
    requires AllDigits(s) && s != "" && (s[0] != '0' || |s| == 1)
    ensures Decimal(Number(s)) == s
    ensures s[0] != '0' ==> Number(s) > 0
  {
    if |s| == 1 {
      assert s[..0] == "";
    } else {
      var head, last := s[..|s| - 1], (s[|s| - 1] - '0') as nat;
      assert IsDigit(s[|s| - 1]) && head[0] == s[0];
      assert Number(s) == 10 * Number(head) + last;
      DecimalOfNumber(head);
      LastDigit(Number(head), last);
      assert s == head + [Digit(last)];
    }
  }

  /** No more zeros in front than the width asks for. */
  predicate Canonical(number: string, width: nat) {
    |number| == width || (|number| > width && number[0] != '0')
  }

  lemma {:induction false} FillRestores(s: string, width: nat)
    requires AllDigits(s) && width >= 1 && Canonical(s, width)
    ensures ZeroFilled(Decimal(Number(s)), width) == s
    decreases |s|
  {
    if |s| > 1 && s[0] == '0' {
      var tail := s[1..];
      assert s == "0" + tail;
      LeadingZero(tail);
      FillRestores(tail, width - 1);
      FillOneMore(Decimal(Number(tail)), width - 1);
    } else {
      DecimalOfNumber(s);
    }
  }

  lemma {:induction false} FillOneMore(s: string, width: nat)
    requires AllDigits(s) && |s| <= width
    ensures ZeroFilled(s, width + 1) == "0" + ZeroFilled(s, width)
    decreases width - |s|
  {
    if |s| < width {
      FillOneMore("0" + s, width);
    }
  }

  /** Parsing loses only redundant leading zeros: formatting what was parsed
      gives the id back exactly when both its numbers are canonical. */
  lemma FormatInvertsParse(cid: string)
    requires Groups(cid).Some?
    ensures var (number, version) := Groups(cid).value;
      FormatClaimId(Number(number), Number(version)) == cid <==> Canonical(number, 4) && Canonical(version, 1)
  {
    var (number, version) := Groups(cid).value;
    var n, v := Number(number), Number(version);
    GroupsAreParts(cid);
    var minted := ZeroFilled(Decimal(n), 4);
    GroupsOf(minted, Decimal(v));
    if FormatClaimId(n, v) == cid {
      assert minted == number && Decimal(v) == version;
      MintedIsCanonical(n, 4);
      MintedIsCanonical(v, 1);
    }
    if Canonical(number, 4) && Canonical(version, 1) {
      FillRestores(number, 4);
      FillRestores(version, 1);
    }
  }

  lemma {:induction false} DecimalHasNoLeadingZero(n: nat)
    ensures |Decimal(n)| > 1 ==> Decimal(n)[0] != '0'
    ensures n > 0 ==> Decimal(n)[0] != '0'
  {
    if n >= 10 {
      DecimalHasNoLeadingZero(n / 10);
    }
  }

  lemma MintedIsCanonical(n: nat, width: nat)
    requires width >= 1
    ensures Canonical(ZeroFilled(Decimal(n), width), width)
  {
    DecimalHasNoLeadingZero(n);
    if |Decimal(n)| < width {
      FilledLength(Decimal(n), width);
    }
  }

  lemma {:induction false} FilledLength(s: string, width: nat)
    requires AllDigits(s) && |s| <= width
    ensures |ZeroFilled(s, width)| == width
    decreases width - |s|
  {
    if |s| < width {
      FilledLength("0" + s, width);
    }
  }
}
