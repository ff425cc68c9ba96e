/**
 * BSON ObjectIds as the pipeline sees them: a 12-byte identifier, read here as a 96-bit
 * unsigned number, whose string form (`str(oid)` in Python, `$toString` in the
 * aggregation) is 24 lowercase hexadecimal digits, most significant first.
 */
module ObjectIds {
  import opened Wrappers
  import opened Text

  function Pow16(k: nat): (p: nat)
    ensures p >= 1
  {
    if k == 0 then 1 else 16 * Pow16(k - 1)
  }

  /** Number of hexadecimal digits in the string form of an ObjectId. */
  const OID_HEX_LEN: nat := 24

  /** An ObjectId as a number: its 12 bytes read big-endian. */
  type ObjectId = n: nat | n < Pow16(OID_HEX_LEN)

  /** 16 to the 24th is 2 to the 96th: an ObjectId is exactly a 96-bit number. */
  lemma ObjectIdIs96Bits()
    ensures Pow16(OID_HEX_LEN) == 0x1_0000_0000_0000_0000_0000_0000
  {
    assert Pow16(8) == 0x1_0000_0000;
    assert Pow16(16) == 0x1_0000_0000_0000_0000;
  }

  predicate IsHexChar(c: char) {
    ('0' <= c <= '9') || ('a' <= c <= 'f') || ('A' <= c <= 'F')
  }

  predicate IsLowerHexChar(c: char) {
    ('0' <= c <= '9') || ('a' <= c <= 'f')
  }

  /** The lowercase digit for a value below 16. */
  function HexDigit(d: nat): (c: char)
    requires d < 16
    ensures IsLowerHexChar(c)
  {
    if d < 10 then ('0' as int + d) as char else ('a' as int + d - 10) as char
  }

  /** The value of a hexadecimal digit of either case. */
  function DigitValue(c: char): (d: nat)
    requires IsHexChar(c)
    ensures d < 16
    ensures HexDigit(d) == LowerChar(c)
  {
    if c <= '9' then c as int - '0' as int
    else if c >= 'a' then c as int - 'a' as int + 10
    else c as int - 'A' as int + 10
  }

  /** Digits are ordered as characters exactly as their values are ordered. */
  lemma HexDigitOrder(d: nat, e: nat)
    requires d < 16 && e < 16
    ensures HexDigit(d) < HexDigit(e) <==> d < e
    ensures HexDigit(d) == HexDigit(e) <==> d == e
  {
  }

  /** `n` written with exactly `w` lowercase hexadecimal digits, most significant first. */
  function HexWidth(n: nat, w: nat): (s: string)
    requires n < Pow16(w)
    ensures |s| == w
    ensures forall k :: 0 <= k < w ==> IsLowerHexChar(s[k])
  {
    if w == 0 then [] else HexWidth(n / 16, w - 1) + [HexDigit(n % 16)]
  }

  /** The number a string of hexadecimal digits (of either case) denotes. */
  function HexValue(s: string): (n: nat)
    requires forall k :: 0 <= k < |s| ==> IsHexChar(s[k])
    ensures n < Pow16(|s|)
  {
    if s == [] then 0 else 16 * HexValue(s[..|s| - 1]) + DigitValue(s[|s| - 1])
  }

  /** `str(oid)`: the `journal_id` of a journal whose `_id` is `id`. */
  function Hex(id: ObjectId): string {
    HexWidth(id, OID_HEX_LEN)
  }

  /**
   * `ObjectId(s)`: succeeds exactly on 24 hexadecimal digits, of either case, and then
   * yields the number they denote.
   */
  function ParseOid(s: string): (r: Option<ObjectId>)
    ensures r.Some? <==> |s| == OID_HEX_LEN && forall k :: 0 <= k < |s| ==> IsHexChar(s[k])
  {
    if |s| == OID_HEX_LEN && (forall k | 0 <= k < |s| :: IsHexChar(s[k])) then Some(HexValue(s)) else None
  }

  lemma {:induction false} HexWidthValue(n: nat, w: nat)
    requires n < Pow16(w)
    ensures HexValue(HexWidth(n, w)) == n
  {
    if w > 0 {
      var s := HexWidth(n, w);
      HexWidthValue(n / 16, w - 1);
      assert s[..w - 1] == HexWidth(n / 16, w - 1);
      assert DigitValue(HexDigit(n % 16)) == n % 16 by {
        HexDigitOrder(DigitValue(HexDigit(n % 16)), n % 16);
      }
    }
  }

  lemma {:induction false} ValueHexWidth(s: string)
    requires forall k :: 0 <= k < |s| ==> IsHexChar(s[k])
    ensures HexWidth(HexValue(s), |s|) == Lower(s)
  {
    if s != [] {
      var init := s[..|s| - 1];
      var n := HexValue(s);
      ValueHexWidth(init);
      assert n / 16 == HexValue(init) && n % 16 == DigitValue(s[|s| - 1]);
      assert Lower(s) == Lower(init) + [LowerChar(s[|s| - 1])];
    }
  }

  /** The string form parses back to the same ObjectId. */
  lemma HexRoundTrip(id: ObjectId)
    ensures ParseOid(Hex(id)) == Some(id)
  {
    HexWidthValue(id, OID_HEX_LEN);
  }

  /** Parsing then printing normalises the case: the printed form is the lowercased input. */
  lemma ParseThenHex(s: string)
    requires ParseOid(s).Some?
    ensures Hex(ParseOid(s).value) == Lower(s)
  {
    ValueHexWidth(s);
  }

  /** Two ObjectIds have the same string form only if they are the same id. */
  lemma HexInjective(a: ObjectId, b: ObjectId)
    ensures Hex(a) == Hex(b) <==> a == b
  {
    HexWidthValue(a, OID_HEX_LEN);
    HexWidthValue(b, OID_HEX_LEN);
  }

  /**
   * Binary string order, as Python's `<` on `str` and MongoDB's `$sort` on strings
   * without a collation compare: a proper prefix comes first, otherwise the first
   * differing character decides.
   */
  predicate LexLess(s: string, t: string)
    decreases |s|
  {
    |t| > 0 && (|s| == 0 || s[0] < t[0] || (s[0] == t[0] && LexLess(s[1..], t[1..])))
  }

  /** On strings of equal length, a common last character is compared only when all the rest ties. */
  lemma {:induction false} LexLessSnoc(s: string, t: string, x: char, y: char)
    requires |s| == |t|
    ensures LexLess(s + [x], t + [y]) <==> LexLess(s, t) || (s == t && x < y)
  {
    if |s| > 0 {
      LexLessSnoc(s[1..], t[1..], x, y);
      assert (s + [x])[1..] == s[1..] + [x];
      assert (t + [y])[1..] == t[1..] + [y];
      assert s == t <==> s[0] == t[0] && s[1..] == t[1..] by {
        if s[0] == t[0] && s[1..] == t[1..] {
          assert s == [s[0]] + s[1..];
          assert t == [t[0]] + t[1..];
        }
      }
    }
  }

  /** Numbers compare by their leading digits first, then by their last digit. */
  lemma DigitsOrder(a: nat, b: nat)
    ensures a < b <==> a / 16 < b / 16 || (a / 16 == b / 16 && a % 16 < b % 16)
  {
    assert a == 16 * (a / 16) + a % 16 && b == 16 * (b / 16) + b % 16;
  }

  lemma {:induction false} HexWidthOrder(a: nat, b: nat, w: nat)
    requires a < Pow16(w) && b < Pow16(w)
    ensures LexLess(HexWidth(a, w), HexWidth(b, w)) <==> a < b
  {
    if w > 0 {
      var ha, hb := HexWidth(a / 16, w - 1), HexWidth(b / 16, w - 1);
      HexWidthOrder(a / 16, b / 16, w - 1);
      LexLessSnoc(ha, hb, HexDigit(a % 16), HexDigit(b % 16));
      HexDigitOrder(a % 16, b % 16);
      HexWidthValue(a / 16, w - 1);
      HexWidthValue(b / 16, w - 1);
      assert ha == hb <==> a / 16 == b / 16;
      DigitsOrder(a, b);
    }
  }

  /**
   * Comparing the 24-character `journal_id` strings is comparing the ObjectIds: sorting by
   * `journal_id` sorts by `_id`, and the last id of such a sort is the largest.
   */
  lemma HexOrder(a: ObjectId, b: ObjectId)
    ensures LexLess(Hex(a), Hex(b)) <==> a < b
  {
    HexWidthOrder(a, b, OID_HEX_LEN);
  }
}
