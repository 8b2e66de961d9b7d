/**
  Object identifiers of the document store. An identifier is a 12-byte (96-bit)
  value; requests name it by its 24-character hexadecimal text, and responses
  render it as 24 lower-case hex digits.
 */
module ObjectIds {
  import opened Wrappers
  import opened Text

  /** The numeric value of an object id. */
  type ObjectId = nat

  /** Number of hex digits in the textual form of an id. */
  const IdWidth: nat := 24

  function Pow16(n: nat): (p: nat)
    ensures p >= 1
  {
    if n == 0 then 1 else 16 * Pow16(n - 1)
  }

  predicate IsHexDigit(c: char) {
    '0' <= c <= '9' || 'a' <= c <= 'f' || 'A' <= c <= 'F'
  }

  predicate AllHex(s: string) {
    forall i | 0 <= i < |s| :: IsHexDigit(s[i])
  }

  /** What the store's cast accepts as an identifier: exactly 24 hex digits, either case. */
  predicate ValidId(s: string) {
    |s| == IdWidth && AllHex(s)
  }

  function DigitValue(c: char): (v: nat)
    requires IsHexDigit(c)
    ensures v < 16
  {
    if '0' <= c <= '9' then c as int - '0' as int
    else if 'a' <= c <= 'f' then c as int - 'a' as int + 10
    else c as int - 'A' as int + 10
  }

  function DigitChar(v: nat): (c: char)
    requires v < 16
    ensures IsHexDigit(c) && DigitValue(c) == v
    ensures !('A' <= c <= 'F')
  {
    if v < 10 then ('0' as int + v) as char else ('a' as int + v - 10) as char
  }

  /** Big-endian value of a string of hex digits. */
  function HexValue(s: string): (v: nat)
    requires AllHex(s)
    ensures v < Pow16(|s|)
  {
    if s == [] then 0
    else
      var init := s[..|s| - 1];
      assert AllHex(init) by {
        forall i | 0 <= i < |init| ensures IsHexDigit(init[i]) {
          assert init[i] == s[i];
        }
      }
      var high := HexValue(init);
      var low := DigitValue(s[|s| - 1]);
      assert high * 16 + low < Pow16(|s|) by {
        assert high <= Pow16(|init|) - 1;
        assert high * 16 <= (Pow16(|init|) - 1) * 16;
      }
      high * 16 + low
  }

  /** The cast the store applies to a textual id: None when the text is malformed. */
  function ParseObjectId(s: string): (r: Option<ObjectId>)
    ensures r.Some? <==> ValidId(s)
    ensures r.Some? ==> r.value < Pow16(IdWidth)
  {
    if ValidId(s) then Some(HexValue(s)) else None
  }

  /** The last `width` hex digits of `n`, lower case, most significant first. */
  function Hex(n: nat, width: nat): (s: string)
    ensures |s| == width
    ensures forall i | 0 <= i < |s| :: IsHexDigit(s[i]) && !('A' <= s[i] <= 'F')
  {
    if width == 0 then [] else Hex(n / 16, width - 1) + [DigitChar(n % 16)]
  }

  /** The text a JSON response shows for an id. */
  function ToHexString(id: ObjectId): (s: string)
    ensures ValidId(s)
  {
    Hex(id, IdWidth)
  }

  lemma MulAtLeast(a: int, m: int)
    requires a >= 1 && m > 0
    ensures a * m >= m
  {
  }

  lemma ModUnique(n: int, m: int, k: int, r: int)
    requires m > 0 && 0 <= r < m && n == k * m + r
    ensures n % m == r && n / m == k
  {
    var q := n / m;
    var t := n % m;
    assert (q - k) * m == r - t;
    if q - k >= 1 {
      MulAtLeast(q - k, m);
    } else if k - q >= 1 {
      MulAtLeast(k - q, m);
    }
    assert q == k;
  }

  lemma ModStep(n: nat, p: nat)
    requires p >= 1
    ensures (n / 16 % p) * 16 + n % 16 == n % (16 * p)
  {
    var q := n / 16;
    var a := q / p;
    var b := q % p;
    assert q == a * p + b;
    assert n == 16 * q + n % 16;
    assert n == a * (16 * p) + (b * 16 + n % 16);
    assert b * 16 + n % 16 < 16 * p by {
      assert b <= p - 1;
      assert b * 16 <= (p - 1) * 16;
    }
    ModUnique(n, 16 * p, a, b * 16 + n % 16);
  }

  /** Reading back `width` rendered digits gives the value modulo 16^width. */
  lemma {:induction false} HexValueOfHex(n: nat, width: nat)
    ensures HexValue(Hex(n, width)) == n % Pow16(width)
  {
    if width > 0 {
      var init := Hex(n / 16, width - 1);
      var s := init + [DigitChar(n % 16)];
      assert s[..|s| - 1] == init;
      HexValueOfHex(n / 16, width - 1);
      ModStep(n, Pow16(width - 1));
    }
  }

  /** Round trip: the cast accepts the rendered text of any 96-bit id and gives the id back. */
  lemma ParseRendered(id: ObjectId)
    requires id < Pow16(IdWidth)
    ensures ParseObjectId(ToHexString(id)) == Some(id)
  {
    HexValueOfHex(id, IdWidth);
    ModUnique(id, Pow16(IdWidth), 0, id);
  }

  /** Hex digits without upper-case letters: the form responses render. */
  predicate LowerHex(s: string) {
    forall i | 0 <= i < |s| :: '0' <= s[i] <= '9' || 'a' <= s[i] <= 'f'
  }

  /** Rendering the value of lower-case hex text gives the text back. */
  lemma {:induction false} HexOfHexValue(s: string)
    requires LowerHex(s)
    ensures AllHex(s) && Hex(HexValue(s), |s|) == s
  {
    if s != [] {
      var init := s[..|s| - 1];
      var c := s[|s| - 1];
      assert LowerHex(init) by {
        forall i | 0 <= i < |init| ensures '0' <= init[i] <= '9' || 'a' <= init[i] <= 'f' {
          assert init[i] == s[i];
        }
      }
      HexOfHexValue(init);
      var high := HexValue(init);
      var d := DigitValue(c);
      var v := HexValue(s);
      assert v == high * 16 + d;
      SplitLastDigit(v, high, d);
      assert Hex(v, |s|) == Hex(high, |init|) + [DigitChar(d)];
      assert DigitChar(d) == c;
      assert s == init + [c];
    }
  }

  lemma SplitLastDigit(v: nat, high: nat, d: nat)
    requires d < 16 && v == high * 16 + d
    ensures v / 16 == high && v % 16 == d
  {
    ModUnique(v, 16, high, d);
  }

  /** Lowering the letters of hex text keeps its value: the cast ignores case. */
  lemma {:induction false} HexValueIgnoresCase(s: string)
    requires AllHex(s)
    ensures LowerHex(Lower(s)) && HexValue(Lower(s)) == HexValue(s)
  {
    if s != [] {
      var init := s[..|s| - 1];
      assert AllHex(init) by {
        forall i | 0 <= i < |init| ensures IsHexDigit(init[i]) {
          assert init[i] == s[i];
        }
      }
      HexValueIgnoresCase(init);
      assert Lower(s)[..|s| - 1] == Lower(init);
    }
  }

  /** A text and its lower-case form cast alike: an upper-case digit reads as its lower-case one. */
  lemma CastIgnoresCase(s: string)
    ensures ParseObjectId(Lower(s)) == ParseObjectId(s)
  {
    if AllHex(s) {
      HexValueIgnoresCase(s);
    } else {
      var i :| 0 <= i < |s| && !IsHexDigit(s[i]);
      assert !IsHexDigit(Lower(s)[i]);
    }
  }

  /**
    The converse of ParseRendered: any text the cast accepts names the id whose
    rendering is that text in lower case.
   */
  lemma CastNamesRenderedId(s: string)
    requires ValidId(s)
    ensures ParseObjectId(s).Some? && ToHexString(ParseObjectId(s).value) == Lower(s)
  {
    HexValueIgnoresCase(s);
    HexOfHexValue(Lower(s));
  }
}
