/**
 Runner ids as they are written: 32 lower-case hex digits.  The table keeps them in the order of
 their characters; reading them as numbers keeps that order.
 */
module RunnerIds {
  import opened RunnerPool

  const ID_LENGTH: nat := 32

  predicate IsHexDigit(c: char) {
    '0' <= c <= '9' || 'a' <= c <= 'f'
  }

  predicate AllHex(s: string) {
    forall i :: 0 <= i < |s| ==> IsHexDigit(s[i])
  }

  predicate IsRunnerId(s: string) {
    |s| == ID_LENGTH && AllHex(s)
  }

  function HexDigit(c: char): (d: nat)
    requires IsHexDigit(c)
    ensures d < 16
  {
    if c <= '9' then (c - '0') as nat else 10 + (c - 'a') as nat
  }

  function HexValue(s: string): nat
    requires AllHex(s)
  {
    if s == "" then 0 else 16 * HexValue(s[..|s| - 1]) + HexDigit(s[|s| - 1])
  }

  function Pow16(n: nat): nat {
    if n == 0 then 1 else 16 * Pow16(n - 1)
  }

  lemma {:induction false} HexValueInRange(s: string)
    requires AllHex(s)
    ensures HexValue(s) < Pow16(|s|)
  {
    if s != "" {
      HexValueInRange(s[..|s| - 1]);
    }
  }

  /** The order of the table: by the first character that differs. */
  predicate Before(a: string, b: string)
    requires |a| == |b|
  {
    a != "" && (a[0] < b[0] || (a[0] == b[0] && Before(a[1..], b[1..])))
  }

  lemma {:induction false} BeforeFromTheEnd(a: string, b: string)
    requires |a| == |b| > 0
    ensures var n := |a| - 1;
            Before(a, b) <==> Before(a[..n], b[..n]) || (a[..n] == b[..n] && a[n] < b[n])
  {
    var n := |a| - 1;
    if n > 0 {
      BeforeFromTheEnd(a[1..], b[1..]);
      assert a[1..][..n - 1] == a[..n][1..] && b[1..][..n - 1] == b[..n][1..];
      assert a[..n] == [a[0]] + a[..n][1..] && b[..n] == [b[0]] + b[..n][1..];
    }
  }

  /** On ids of one length the order of the characters is the order of the numbers, and no two ids are one number. */
  lemma {:induction false} OrderOfIds(a: string, b: string)
    requires |a| == |b| && AllHex(a) && AllHex(b)
    ensures Before(a, b) <==> HexValue(a) < HexValue(b)
    ensures a == b <==> HexValue(a) == HexValue(b)
  {
    if a != "" {
      var n := |a| - 1;
      OrderOfIds(a[..n], b[..n]);
      BeforeFromTheEnd(a, b);
      assert a == a[..n] + [a[n]] && b == b[..n] + [b[n]];
    }
  }

  lemma {:induction false} Pow16OfSum(a: nat, b: nat)
    ensures Pow16(a + b) == Pow16(a) * Pow16(b)
  {
    if a > 0 {
      Pow16OfSum(a - 1, b);
    }
  }

  lemma KeySpaceIsEnough(id: string)
    requires IsRunnerId(id)
    ensures HexValue(id) < KEY_SPACE
  {
    HexValueInRange(id);
    assert Pow16(8) == 0x1_0000_0000;
    Pow16OfSum(8, 8);
    Pow16OfSum(16, 16);
  }

  function KeyOf(id: string): Key
    requires IsRunnerId(id)
  {
    KeySpaceIsEnough(id);
    HexValue(id)
  }

  /** 32 characters, each of them one of the sixteen. */
  lemma RunnerIdChars(s: string)
    ensures IsRunnerId(s) <==> |s| == 32 && forall c <- s :: c in "0123456789abcdef"
  {
    forall c: char
      ensures IsHexDigit(c) <==> c in "0123456789abcdef"
    {
      if '0' <= c <= '9' {
        assert "0123456789abcdef"[(c - '0') as nat] == c;
      } else if 'a' <= c <= 'f' {
        assert "0123456789abcdef"[10 + (c - 'a') as nat] == c;
      }
    }
  }
}
