/** The PIN second factor of service/UserService.java: a six-digit,
    zero-padded code drawn from [0, 1000000), an append-only table of issued
    PINs with a five-minute lifetime, and the validity query over it. */
module Pins {
  import opened Common

  const PinLength := 6
  /** `Random.nextInt(1000000)` draws from [0, PinRange). */
  const PinRange := 1000000
  /** Lifetime of an issued PIN, in minutes. */
  const PinMinutes := 5

  function Pow10(k: nat): (p: nat)
    ensures p >= 1
  {
    if k == 0 then 1 else 10 * Pow10(k - 1)
  }

  predicate IsDigit(c: char) {
    '0' <= c <= '9'
  }

  predicate AllDigits(s: string) {
    forall i :: 0 <= i < |s| ==> IsDigit(s[i])
  }

  function DigitChar(d: nat): (c: char)
    requires d < 10
    ensures IsDigit(c) && (c as int) - ('0' as int) == d
  {
    (('0' as int) + d) as char
  }

  /** The number a string of decimal digits spells, most significant digit first. */
  function DecimalValue(s: string): int
    requires AllDigits(s)
  {
    if s == [] then 0
    else 10 * DecimalValue(s[..|s| - 1]) + ((s[|s| - 1] as int) - ('0' as int))
  }

  /** The last `width` decimal digits of `n`, left-padded with zeros. */
  function ZeroPadded(n: nat, width: nat): (s: string)
    ensures |s| == width && AllDigits(s)
  {
    if width == 0 then "" else ZeroPadded(n / 10, width - 1) + [DigitChar(n % 10)]
  }

  /** Padding to a width wide enough for `n` loses nothing: the digits spell `n`. */
  lemma {:induction false} ZeroPaddedValue(n: nat, width: nat)
    requires n < Pow10(width)
    ensures DecimalValue(ZeroPadded(n, width)) == n
  {
    if width > 0 {
      var s := ZeroPadded(n, width);
      assert n / 10 < Pow10(width - 1);
      ZeroPaddedValue(n / 10, width - 1);
      assert s[..|s| - 1] == ZeroPadded(n / 10, width - 1);
      assert s[|s| - 1] == DigitChar(n % 10);
    }
  }

  /** `generatePin` given the drawn number `n`: `String.format("%06d", n)`. The
      PIN is six digits and reads back as exactly `n`. */
  function FormatPin(n: int): (pin: string)
    requires 0 <= n < PinRange
    ensures |pin| == PinLength && AllDigits(pin)
    ensures DecimalValue(pin) == n
  {
    assert Pow10(6) == PinRange;
    ZeroPaddedValue(n, 6);
    ZeroPadded(n, 6)
  }

  /** Distinct draws give distinct PINs. */
  lemma FormatPinInjective(m: int, n: int)
    requires 0 <= m < PinRange && 0 <= n < PinRange
    ensures FormatPin(m) == FormatPin(n) ==> m == n
  {
  }

  /** A row of the `mfa_tokens` table; `used` is the column's default, false, and nothing sets it. */
  datatype PinRow = PinRow(userId: UserId, token: string, expiresAt: Time, used: bool)

  /** The row `savePin` inserts at `now`. */
  function IssuedPin(userId: UserId, pin: string, now: Time): (r: PinRow)
    ensures !r.used && r.expiresAt == now + PinMinutes
    ensures forall at :: Redeems(r, userId, pin, at) <==> at < now + PinMinutes
    ensures forall u, p, at :: Redeems(r, u, p, at) ==> u == userId && p == pin
  {
    PinRow(userId, pin, now + PinMinutes, false)
  }

  /** The condition of `verifyPin`'s query on one row. */
  predicate Redeems(r: PinRow, userId: UserId, pin: string, now: Time) {
    r.userId == userId && r.token == pin && !r.used && r.expiresAt > now
  }

  /** `verifyPin`: some row of the table redeems the user's PIN at `now`. */
  predicate PinValid(pins: seq<PinRow>, userId: UserId, pin: string, now: Time): (ok: bool)
    ensures ok <==> exists i :: 0 <= i < |pins| && pins[i].userId == userId && pins[i].token == pin
                                && !pins[i].used && now < pins[i].expiresAt
  {
    exists i :: 0 <= i < |pins| && Redeems(pins[i], userId, pin, now)
  }

  /** A PIN saved at `issued` is accepted at every instant strictly before
      `issued + 5` and, absent other matching rows, rejected from then on:
      the expiry comparison is strict. */
  lemma SavedPinWindow(pins: seq<PinRow>, userId: UserId, pin: string, issued: Time, now: Time)
    requires !PinValid(pins, userId, pin, now)
    ensures PinValid(pins + [IssuedPin(userId, pin, issued)], userId, pin, now) <==> now < issued + PinMinutes
  {
    var pins' := pins + [IssuedPin(userId, pin, issued)];
    if now < issued + PinMinutes {
      assert Redeems(pins'[|pins|], userId, pin, now);
    } else {
      forall i | 0 <= i < |pins'| ensures !Redeems(pins'[i], userId, pin, now) {
        if i < |pins| { assert pins'[i] == pins[i]; }
      }
    }
  }

  /** The table is append-only: issuing a new PIN never invalidates an earlier one. */
  lemma IssuingKeepsEarlierPins(pins: seq<PinRow>, r: PinRow, userId: UserId, pin: string, now: Time)
    requires PinValid(pins, userId, pin, now)
    ensures PinValid(pins + [r], userId, pin, now)
  {
    var i :| 0 <= i < |pins| && Redeems(pins[i], userId, pin, now);
    assert (pins + [r])[i] == pins[i];
  }

  /** A PIN issued to one user never lets another user in. */
  lemma PinIsBoundToUser(pins: seq<PinRow>, userId: UserId, other: UserId, pin: string, issued: Time, now: Time)
    requires other != userId && !PinValid(pins, other, pin, now)
    ensures !PinValid(pins + [IssuedPin(userId, pin, issued)], other, pin, now)
  {
  }
}
