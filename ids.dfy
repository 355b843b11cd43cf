/**
 * Record ids: `${prefix}${String(counter++).padStart(3, "0")}`, as in
 * `session_001`, `meeting_012`, `history_1234`. The id of a counter value
 * can be parsed back to that value, so two counter values never give the
 * same id, and an id handed out once is never handed out again.
 */
module Ids {
  import opened Common

  predicate IsDigit(c: char) {
    '0' <= c <= '9'
  }

  predicate IsDigits(s: string) {
    forall i :: 0 <= i < |s| ==> IsDigit(s[i])
  }

  function DigitChar(d: nat): (c: char)
    requires d < 10
    ensures IsDigit(c) && c as int - '0' as int == d
  {
    ('0' as int + d) as char
  }

  /** String(n): the decimal digits of `n`, without leading zeros. */
  function Decimal(n: nat): (s: string)
    ensures |s| >= 1 && IsDigits(s)
    ensures s[0] == '0' <==> n == 0
    ensures n < 10 ==> |s| == 1
    ensures n < 100 ==> |s| <= 2
    ensures n < 1000 ==> |s| <= 3
  {
    if n < 10 then [DigitChar(n)] else Decimal(n / 10) + [DigitChar(n % 10)]
  }

  /** The number a string of decimal digits denotes (leading zeros allowed). */
  function DigitsValue(s: string): nat
    requires IsDigits(s)
  {
    if s == [] then 0
    else 10 * DigitsValue(s[..|s| - 1]) + (s[|s| - 1] as int - '0' as int)
  }

  function Repeat(c: char, k: nat): (r: string)
    ensures |r| == k && forall i :: 0 <= i < k ==> r[i] == c
  {
    if k == 0 then [] else [c] + Repeat(c, k - 1)
  }

  /** String.prototype.padStart(width, "0"). */
  function PadStart(s: string, width: nat): (r: string)
    ensures |r| == if |s| < width then width else |s|
    ensures r[|r| - |s|..] == s
    ensures forall i :: 0 <= i < |r| - |s| ==> r[i] == '0'
  {
    if |s| >= width then s else Repeat('0', width - |s|) + s
  }

  /** The id the stores give the record created when the counter was `n`. */
  function FormatId(prefix: string, n: nat): string {
    prefix + PadStart(Decimal(n), 3)
  }

  /** An id is the prefix and at least three digits; exactly three below 1000. */
  lemma FormatIdShape(prefix: string, n: nat)
    ensures var id := FormatId(prefix, n);
      && |id| >= |prefix| + 3 && id[..|prefix|] == prefix && IsDigits(id[|prefix|..])
      && (n < 1000 ==> |id| == |prefix| + 3)
  {
    var id := FormatId(prefix, n);
    assert id[|prefix|..] == PadStart(Decimal(n), 3);
  }

  /** Reads an id back: the prefix, then nothing but digits. */
  function ParseId(prefix: string, id: string): (r: Option<nat>)
    ensures r.Some? ==> |id| > |prefix| && id[..|prefix|] == prefix
  {
    if |id| > |prefix| && id[..|prefix|] == prefix && IsDigits(id[|prefix|..])
    then Some(DigitsValue(id[|prefix|..]))
    else None
  }

  lemma {:induction false} DecimalValue(n: nat)
    ensures DigitsValue(Decimal(n)) == n
  {
    if n >= 10 {
      var s := Decimal(n);
      assert s[..|s| - 1] == Decimal(n / 10);
      DecimalValue(n / 10);
    }
  }

  lemma {:induction false} LeadingZeroValue(s: string)
    requires IsDigits(s)
    ensures IsDigits(['0'] + s) && DigitsValue(['0'] + s) == DigitsValue(s)
  {
    var t := ['0'] + s;
    if s != [] {
      assert t[..|t| - 1] == ['0'] + s[..|s| - 1];
      LeadingZeroValue(s[..|s| - 1]);
    }
  }

  lemma {:induction false} LeadingZerosValue(k: nat, s: string)
    requires IsDigits(s)
    ensures IsDigits(Repeat('0', k) + s) && DigitsValue(Repeat('0', k) + s) == DigitsValue(s)
  {
    if k == 0 {
      assert Repeat('0', k) + s == s;
    } else {
      LeadingZerosValue(k - 1, s);
      assert Repeat('0', k) + s == ['0'] + (Repeat('0', k - 1) + s);
      LeadingZeroValue(Repeat('0', k - 1) + s);
    }
  }

  /** Three digits at least, zero-padded, and all the digits once the counter passes 999. */
  lemma FormattedExamples()
    ensures FormatId("session_", 1) == "session_001"
    ensures FormatId("history_", 12) == "history_012"
    ensures FormatId("meeting_", 1000) == "meeting_1000"
  {
  }

  /** Parsing an id gives back the counter value it was made from. */
  lemma ParseFormatted(prefix: string, n: nat)
    ensures ParseId(prefix, FormatId(prefix, n)) == Some(n)
  {
    var digits := Decimal(n);
    var id := FormatId(prefix, n);
    assert id[|prefix|..] == PadStart(digits, 3);
    assert id[..|prefix|] == prefix;
    if |digits| < 3 {
      LeadingZerosValue(3 - |digits|, digits);
    }
    DecimalValue(n);
  }

  /** Distinct counter values give distinct ids. */
  lemma FormatIdInjective(prefix: string, m: nat, n: nat)
    ensures FormatId(prefix, m) == FormatId(prefix, n) ==> m == n
  {
    ParseFormatted(prefix, m);
    ParseFormatted(prefix, n);
  }

  /** The ids a counter now standing at `counter` has handed out (it starts at 1). */
  ghost function IssuedIds(prefix: string, counter: nat): set<string> {
    set k: nat | 1 <= k < counter :: FormatId(prefix, k)
  }

  /** The counter's current value gives an id not handed out before, and issuing it extends the set. */
  lemma FreshId(prefix: string, counter: nat)
    requires counter >= 1
    ensures FormatId(prefix, counter) !in IssuedIds(prefix, counter)
    ensures IssuedIds(prefix, counter) + {FormatId(prefix, counter)} <= IssuedIds(prefix, counter + 1)
  {
    forall k: nat | 1 <= k < counter
      ensures FormatId(prefix, k) != FormatId(prefix, counter)
    {
      FormatIdInjective(prefix, k, counter);
    }
    assert FormatId(prefix, counter) in IssuedIds(prefix, counter + 1);
  }
}
