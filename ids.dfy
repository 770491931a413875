/** Ticket ids (src/lib/ticketLogic.ts): `TICKET-` followed by the ticket number in decimal,
    left-padded with zeros to four digits (`ticketNumber.toString().padStart(4, "0")`). */
module TicketIds {

  predicate IsDigit(ch: char)
  {
    '0' <= ch <= '9'
  }

  function DigitChar(d: int): char
    requires 0 <= d < 10
  {
    ['0', '1', '2', '3', '4', '5', '6', '7', '8', '9'][d]
  }

  /** `n.toString()` for a natural number: decimal digits, no leading zero except for 0. */
  function NatToString(n: nat): (s: string)
    ensures |s| >= 1 && forall i :: 0 <= i < |s| ==> IsDigit(s[i])
    ensures |s| > 1 ==> s[0] != '0'
  {
    if n < 10 then [DigitChar(n)] else NatToString(n / 10) + [DigitChar(n % 10)]
  }

  /** `s.padStart(width, ch)`: `ch` repeated in front of `s` up to `width` characters. */
  function PadStart(s: string, width: nat, ch: char): (r: string)
    ensures |r| == if |s| >= width then |s| else width
    ensures r[|r| - |s|..] == s
    ensures forall i :: 0 <= i < |r| - |s| ==> r[i] == ch
  {
    if |s| >= width then s else [ch] + PadStart(s, width - 1, ch)
  }

  /** The id of ticket number `n`. */
  function TicketId(n: nat): (id: string)
    ensures |id| >= 11 && id[..7] == "TICKET-"
    ensures forall i :: 7 <= i < |id| ==> IsDigit(id[i])
  {
    "TICKET-" + PadStart(NatToString(n), 4, '0')
  }

  // ---- reading the number back ----

  /** The value of a string of decimal digits. */
  function DecimalValue(s: string): int
    requires forall i :: 0 <= i < |s| ==> IsDigit(s[i])
  {
    if s == [] then 0 else DecimalValue(s[..|s| - 1]) * 10 + (s[|s| - 1] as int - '0' as int)
  }

  lemma DigitCharValue(d: int)
    requires 0 <= d < 10
    ensures IsDigit(DigitChar(d)) && DigitChar(d) as int - '0' as int == d
  {
  }

  /** Printing and reading back a natural number gives it back. */
  lemma {:induction false} NatToStringValue(n: nat)
    ensures DecimalValue(NatToString(n)) == n
  {
    var s := NatToString(n);
    if n < 10 {
      DigitCharValue(n);
      assert s[..0] == [];
    } else {
      NatToStringValue(n / 10);
      DigitCharValue(n % 10);
      assert s[..|s| - 1] == NatToString(n / 10);
    }
  }

  /** Leading zeros do not change the value of a digit string. */
  lemma {:induction false} LeadingZeros(z: string, s: string)
    requires forall i :: 0 <= i < |z| ==> z[i] == '0'
    requires forall i :: 0 <= i < |s| ==> IsDigit(s[i])
    ensures DecimalValue(z + s) == DecimalValue(s)
    decreases |s|, |z|
  {
    if s == [] {
      assert z + s == z;
      if z != [] {
        LeadingZeros(z[..|z| - 1], []);
        assert z[..|z| - 1] + [] == z[..|z| - 1];
      }
    } else {
      LeadingZeros(z, s[..|s| - 1]);
      assert (z + s)[..|z + s| - 1] == z + s[..|s| - 1];
    }
  }

  /** The digits of a ticket id read back as its number. */
  lemma TicketIdValue(n: nat)
    ensures DecimalValue(TicketId(n)[7..]) == n
  {
    var s := NatToString(n);
    var p := PadStart(s, 4, '0');
    assert TicketId(n)[7..] == p;
    assert p == p[..|p| - |s|] + s;
    LeadingZeros(p[..|p| - |s|], s);
    NatToStringValue(n);
  }

  /** Different ticket numbers get different ids. */
  lemma TicketIdInjective(a: nat, b: nat)
    requires a != b
    ensures TicketId(a) != TicketId(b)
  {
    TicketIdValue(a);
    TicketIdValue(b);
  }
}
