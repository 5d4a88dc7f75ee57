/** Shape colours. A constellation's colour lives in the editor as a 24-bit
    RGB value, is persisted as the string `'#' + getHexString()` (six
    lower-case hexadecimal digits) and is read back with
    `new THREE.Color(string)` when the constellation is displayed. */
module Colors {
  import opened Common

  /** A 24-bit colour 0xRRGGBB. */
  type Rgb = n: nat | n < 0x100_0000

  /** three.js's initial colour, which stays in place when a style string
      is not understood. */
  const White: Rgb := 0xFF_FFFF

  const HexChars: string := "0123456789abcdef"

  /** A lower-case hexadecimal digit, as `getHexString` writes them. */
  predicate IsLowerHex(c: char) {
    '0' <= c <= '9' || 'a' <= c <= 'f'
  }

  /** One hexadecimal digit, either case. */
  function DigitValue(c: char): (r: Option<nat>)
    ensures r.Some? ==> r.value < 16
  {
    if '0' <= c <= '9' then Some(c as int - '0' as int)
    else if 'a' <= c <= 'f' then Some(c as int - 'a' as int + 10)
    else if 'A' <= c <= 'F' then Some(c as int - 'A' as int + 10)
    else None
  }

  function Pow16(k: nat): (p: nat)
    ensures p > 0
  {
    if k == 0 then 1 else 16 * Pow16(k - 1)
  }

  /** The last `k` hexadecimal digits of `n`, most significant first,
      zero-padded, lower case. */
  function Digits(n: nat, k: nat): (s: string)
    ensures |s| == k
    ensures forall i :: 0 <= i < k ==> IsLowerHex(s[i])
  {
    if k == 0 then [] else Digits(n / 16, k - 1) + [HexChars[n % 16]]
  }

  /** The persisted form of a colour: `'#' + color.getHexString()`. */
  function ToHex(c: Rgb): (s: string)
    ensures |s| == 7 && s[0] == '#'
    ensures forall i :: 1 <= i < 7 ==> IsLowerHex(s[i])
  {
    "#" + Digits(c, 6)
  }

  /** The value of a string of hexadecimal digits, if it is one. */
  function DigitsValue(s: string): (r: Option<nat>)
    ensures r.Some? ==> r.value < Pow16(|s|)
  {
    if |s| == 0 then Some(0)
    else
      match (DigitsValue(s[..|s| - 1]), DigitValue(s[|s| - 1]))
      case (Some(h), Some(d)) => Some(h * 16 + d)
      case _ => None
  }

  /** `new THREE.Color(style)` for the `#rrggbb` form; any other string
      leaves the colour white. */
  function ParseStyle(s: string): Rgb {
    if |s| == 7 && s[0] == '#' then
      match DigitsValue(s[1..])
      case Some(v) => if v < 0x100_0000 then v else White
      case None => White
    else White
  }

  lemma HexCharValue(v: nat)
    requires v < 16
    ensures DigitValue(HexChars[v]) == Some(v) && IsLowerHex(HexChars[v])
  {
  }

  /** The last digit and the rest of a number that fits in `k` digits. */
  lemma HexSplit(n: nat, k: nat)
    requires k > 0 && n < Pow16(k)
    ensures n / 16 < Pow16(k - 1) && (n / 16) * 16 + n % 16 == n
  {
  }

  /** Reading back `k` written digits yields the number written, when it
      fits in `k` digits. */
  lemma {:induction false} DigitsRoundTrip(n: nat, k: nat)
    requires n < Pow16(k)
    ensures DigitsValue(Digits(n, k)) == Some(n)
  {
    if k > 0 {
      var q, m := n / 16, n % 16;
      HexSplit(n, k);
      var s := Digits(q, k - 1);
      var d := HexChars[m];
      assert Digits(n, k) == s + [d];
      assert (s + [d])[..|s|] == s;
      DigitsRoundTrip(q, k - 1);
      HexCharValue(m);
    }
  }

  /** A saved colour is displayed in the colour it was saved with. */
  lemma ParseToHex(c: Rgb)
    ensures ParseStyle(ToHex(c)) == c
  {
    assert Pow16(6) == 0x100_0000;
    DigitsRoundTrip(c, 6);
    assert ToHex(c)[1..] == Digits(c, 6);
  }
}
