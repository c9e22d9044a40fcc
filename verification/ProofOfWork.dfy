/** NIP-13 difficulty: the bot's and the resolver's leading-zero counters, and what they measure. */
module ProofOfWork {
  import opened Text

  /** `char::to_digit(16)`; `parseInt(c, 16)` on one character gives the same digit or NaN. */
  function HexDigit(c: char): (d: Option<nat>)
    ensures d.Some? ==> d.value < 16
  {
    if '0' <= c <= '9' then Some(c as nat - '0' as nat)
    else if 'a' <= c <= 'f' then Some(c as nat - 'a' as nat + 10)
    else if 'A' <= c <= 'F' then Some(c as nat - 'A' as nat + 10)
    else None
  }

  /** The digits, in both cases. */
  lemma HexDigitIs(c: char, d: nat)
    requires d < 16
    ensures HexDigit(c) == Some(d) <==> c == "0123456789abcdef"[d] || c == "0123456789ABCDEF"[d]
  {
    var low, up := "0123456789abcdef", "0123456789ABCDEF";
    assert forall i | 0 <= i < 10 :: low[i] == '0' + i as char;
    assert forall i | 10 <= i < 16 :: low[i] == 'a' + (i - 10) as char;
    assert forall i | 0 <= i < 10 :: up[i] == '0' + i as char;
    assert forall i | 10 <= i < 16 :: up[i] == 'A' + (i - 10) as char;
  }

  function Pow2(n: nat): (p: nat)
    ensures p > 0
  {
    if n == 0 then 1 else 2 * Pow2(n - 1)
  }

  /** Leading zero bits of `n` seen as a word of `width` bits. */
  function LeadingZeros(n: nat, width: nat): (z: nat)
    requires n < Pow2(width)
    ensures z <= width
    ensures n > 0 ==> z < width && Pow2(width - z - 1) <= n < Pow2(width - z)
    ensures n == 0 ==> z == width
  {
    if width == 0 || n >= Pow2(width - 1) then 0 else 1 + LeadingZeros(n, width - 1)
  }

  lemma {:induction false} WiderWord(n: nat, width: nat, extra: nat)
    requires n < Pow2(width)
    ensures n < Pow2(width + extra)
    ensures LeadingZeros(n, width + extra) == LeadingZeros(n, width) + extra
  {
    if extra > 0 {
      WiderWord(n, width, extra - 1);
    }
  }

  function LeadingZeroBits(id: string): nat {
    if id == [] then 0
    else
      match HexDigit(id[0])
      case None => 0
      case Some(d) =>
        assert Pow2(4) == 16;
        if d == 0 then 4 + LeadingZeroBits(id[1..]) else LeadingZeros(d, 4)
  }

  lemma NibbleInByte(d: nat)
    requires d < 16
    ensures d < Pow2(4) && d < Pow2(8) && LeadingZeros(d, 8) == LeadingZeros(d, 4) + 4
  {
    assert Pow2(4) == 16;
    WiderWord(d, 4, 4);
  }

  lemma NibbleInWord(d: nat)
    requires d < 16
    ensures d < Pow2(4) && d < Pow2(32) && LeadingZeros(d, 32) == LeadingZeros(d, 4) + 28
  {
    assert Pow2(4) == 16;
    WiderWord(d, 4, 28);
  }

  /** The bot's counter: bytes, `u8::leading_zeros`. */
  method CountLeadingZeroBits(hexId: string) returns (count: nat)
    ensures count == LeadingZeroBits(hexId)
  {
    count := 0;
    for i := 0 to |hexId|
      invariant count + LeadingZeroBits(hexId[i..]) == LeadingZeroBits(hexId)
    {
      assert hexId[i..][1..] == hexId[i + 1..];
      var digit := HexDigit(hexId[i]);
      if digit.None? {
        break;
      }
      var nibble := digit.value;
      NibbleInByte(nibble);
      if nibble == 0 {
        count := count + 4;
      } else {
        count := count + (LeadingZeros(nibble, 8) - 4);
        break;
      }
    }
  }

  /** The resolver's counter: 32-bit words, `Math.clz32`. */
  method CountLeadingZeroBitsResolver(hexId: string) returns (count: nat)
    ensures count == LeadingZeroBits(hexId)
  {
    count := 0;
    var i := 0;
    while i < |hexId|
      invariant i <= |hexId|
      invariant count + LeadingZeroBits(hexId[i..]) == LeadingZeroBits(hexId)
    {
      assert hexId[i..][1..] == hexId[i + 1..];
      var digit := HexDigit(hexId[i]);
      if digit.None? {
        break;
      }
      var nibble := digit.value;
      NibbleInWord(nibble);
      if nibble == 0 {
        count := count + 4;
      } else {
        count := count + (LeadingZeros(nibble, 32) - 28);
        break;
      }
      i := i + 1;
    }
  }

  method VerifyPow(eventId: string, minDifficulty: nat) returns (ok: bool)
    ensures ok <==> LeadingZeroBits(eventId) >= minDifficulty
  {
    var difficulty := CountLeadingZeroBits(eventId);
    ok := difficulty >= minDifficulty;
  }

  // -------------------------------------------------------------------------
  // Difficulty is a numeric threshold
  // -------------------------------------------------------------------------

  ghost predicate IsHex(s: string) {
    forall i | 0 <= i < |s| :: HexDigit(s[i]).Some?
  }

  /** The number an id spells in base 16. */
  function HexValue(s: string): nat
    requires IsHex(s)
  {
    if s == [] then 0
    else HexDigit(s[0]).value * Pow2(4 * (|s| - 1)) + HexValue(s[1..])
  }

  lemma {:induction false} Pow2Add(m: nat, n: nat)
    ensures Pow2(m + n) == Pow2(m) * Pow2(n)
  {
    if m > 0 {
      Pow2Add(m - 1, n);
    }
  }

  lemma {:induction false} Pow2Grows(m: nat, n: nat)
    requires m <= n
    ensures Pow2(m) <= Pow2(n)
  {
    if m < n {
      Pow2Grows(m, n - 1);
    }
  }

  lemma ScaleUp(a: nat, b: nat, p: nat)
    requires a <= b
    ensures a * p <= b * p
  {
  }

  lemma {:induction false} HexValueBound(s: string)
    requires IsHex(s)
    ensures HexValue(s) < Pow2(4 * |s|)
  {
    if s != [] {
      HexValueBound(s[1..]);
      var m := 4 * (|s| - 1);
      assert Pow2(m + 4) == 2 * Pow2(m + 3) == 4 * Pow2(m + 2) == 8 * Pow2(m + 1);
      ScaleUp(HexDigit(s[0]).value, 15, Pow2(m));
    }
  }

  lemma ScaledDigit(d: nat, lo: nat, m: nat, rest: nat)
    requires Pow2(lo) <= d < Pow2(lo + 1) && rest < Pow2(m)
    ensures Pow2(lo + m) <= d * Pow2(m) + rest < Pow2(lo + 1 + m)
  {
    Pow2Add(lo, m);
    Pow2Add(lo + 1, m);
    ScaleUp(Pow2(lo), d, Pow2(m));
    ScaleUp(d + 1, Pow2(lo + 1), Pow2(m));
    assert (d + 1) * Pow2(m) == d * Pow2(m) + Pow2(m);
  }

  lemma NibbleBounds(s: string) returns (z: nat)
    requires IsHex(s) && s != [] && HexDigit(s[0]).value > 0
    ensures z == LeadingZeroBits(s) < 4
    ensures Pow2(3 - z) <= HexDigit(s[0]).value < Pow2(4 - z)
  {
    assert Pow2(4) == 16;
    z := LeadingZeros(HexDigit(s[0]).value, 4);
  }

  /** A non-zero leading digit pins the value between two powers of two. */
  lemma LeadingDigitBounds(s: string)
    requires IsHex(s) && s != [] && HexDigit(s[0]).value > 0
    ensures LeadingZeroBits(s) < 4
    ensures Pow2(4 * |s| - LeadingZeroBits(s) - 1) <= HexValue(s) < Pow2(4 * |s| - LeadingZeroBits(s))
  {
    var d := HexDigit(s[0]).value;
    HexValueBound(s[1..]);
    var z := NibbleBounds(s);
    ScaledDigit(d, 3 - z, 4 * (|s| - 1), HexValue(s[1..]));
  }

  /** A value between two powers of two is below exactly the larger powers. */
  lemma BelowPower(value: nat, width: nat, z: nat, d: nat)
    requires z < width && Pow2(width - z - 1) <= value < Pow2(width - z) && d <= width
    ensures value < Pow2(width - d) <==> d <= z
  {
    if d <= z {
      Pow2Grows(width - z, width - d);
    } else {
      Pow2Grows(width - d, width - z - 1);
    }
  }

  lemma NonZeroDigit(s: string, d: nat)
    requires IsHex(s) && s != [] && HexDigit(s[0]).value > 0
    ensures LeadingZeroBits(s) >= d <==> d <= 4 * |s| && HexValue(s) < Pow2(4 * |s| - d)
  {
    LeadingDigitBounds(s);
    if d <= 4 * |s| {
      BelowPower(HexValue(s), 4 * |s|, LeadingZeroBits(s), d);
    }
  }

  lemma ZeroDigit(s: string)
    requires IsHex(s) && s != [] && HexDigit(s[0]).value == 0
    ensures LeadingZeroBits(s) == 4 + LeadingZeroBits(s[1..])
    ensures HexValue(s) == HexValue(s[1..]) < Pow2(4 * (|s| - 1))
  {
    HexValueBound(s[1..]);
  }

  /** An id of n hex digits meets difficulty d exactly when its value is below 2^(4n - d); no id
      of n digits meets more than 4n. */
  lemma {:induction false} DifficultyIsThreshold(s: string, d: nat)
    requires IsHex(s)
    ensures LeadingZeroBits(s) >= d <==> d <= 4 * |s| && HexValue(s) < Pow2(4 * |s| - d)
  {
    if s != [] && HexDigit(s[0]).value > 0 {
      NonZeroDigit(s, d);
    } else if s != [] {
      ZeroDigit(s);
      if d >= 4 {
        DifficultyIsThreshold(s[1..], d - 4);
      } else {
        Pow2Grows(4 * (|s| - 1), 4 * |s| - d);
      }
    }
  }
}
