/**
 * Piece construction: the table of the seven tetromino shapes, the colour
 * helpers that brighten or darken a `#rrggbb` colour, the render options of
 * a single block, and the layout of a whole piece around a spawn point.
 *
 * The colour helpers are modelled with the JavaScript semantics they rely
 * on: `substring` clamps its indices, `parseInt(s, 16)` skips leading white
 * space, reads an optional sign and `0x` prefix and then the longest run of
 * hex digits (yielding NaN when there is none), `Math.min`/`Math.max`
 * propagate NaN, and `toString(16)` writes lowercase digits with a leading
 * minus sign for negative numbers.
 */
module Tetromino {
  import opened Physics

  // ---------------------------------------------------------------------
  // Constants the piece factory takes from the game object

  /** `Game.BLOCK_SIZE`: the side of one square block, in pixels. */
  const BLOCK_SIZE: real := 30.0

  /** `Game.friction` and `Game.restitution`, given to every block and piece. */
  const FRICTION: real := 0.1
  const RESTITUTION: real := 0.1

  /** The `percent` arguments `createBlock` passes to the colour helpers. */
  const STROKE_LIGHTEN: int := 40
  const GRADIENT_DARKEN: int := 30

  // ---------------------------------------------------------------------
  // The shape table

  datatype ShapeType = I | O | T | S | Z | J | L

  /** `shapeTypes`: the keys of the shape table, in declaration order. */
  const SHAPE_TYPES: seq<ShapeType> := [I, O, T, S, Z, J, L]

  /** The key of a shape in the tables, as a string. */
  function Name(t: ShapeType): string
  {
    match t
    case I => "I"
    case O => "O"
    case T => "T"
    case S => "S"
    case Z => "Z"
    case J => "J"
    case L => "L"
  }

  /** `Game.COLORS`: the colour of each shape. */
  function Color(t: ShapeType): string
  {
    match t
    case I => "#00FFFF"
    case O => "#FFFF00"
    case T => "#800080"
    case S => "#00FF00"
    case Z => "#FF0000"
    case J => "#0000FF"
    case L => "#FFA500"
  }

  /** `shapes[t]`: the centres of the four blocks relative to the piece's reference point. */
  function Offsets(t: ShapeType): seq<Point>
  {
    var b := BLOCK_SIZE;
    match t
    case I => [Point(-b * 1.5, 0.0), Point(-b * 0.5, 0.0), Point(b * 0.5, 0.0), Point(b * 1.5, 0.0)]
    case O => [Point(-b * 0.5, -b * 0.5), Point(b * 0.5, -b * 0.5), Point(-b * 0.5, b * 0.5), Point(b * 0.5, b * 0.5)]
    case T => [Point(0.0, -b), Point(-b, 0.0), Point(0.0, 0.0), Point(b, 0.0)]
    case S => [Point(0.0, -b), Point(b, -b), Point(-b, 0.0), Point(0.0, 0.0)]
    case Z => [Point(-b, -b), Point(0.0, -b), Point(0.0, 0.0), Point(b, 0.0)]
    case J => [Point(b, -b), Point(-b, 0.0), Point(0.0, 0.0), Point(b, 0.0)]
    case L => [Point(-b, -b), Point(-b, 0.0), Point(0.0, 0.0), Point(b, 0.0)]
  }

  /** The table has seven distinct keys, I, O, T, S, Z, J, L in that order, and every shape four blocks. */
  lemma ShapeTable()
    ensures |SHAPE_TYPES| == 7
    ensures forall t: ShapeType :: t in SHAPE_TYPES && |Offsets(t)| == 4
    ensures forall i, j :: 0 <= i < j < |SHAPE_TYPES| ==> SHAPE_TYPES[i] != SHAPE_TYPES[j]
    ensures forall i, j :: 0 <= i < j < |SHAPE_TYPES| ==> Name(SHAPE_TYPES[i]) != Name(SHAPE_TYPES[j])
  {
    forall t: ShapeType
      ensures t in SHAPE_TYPES
    {
      match t
      case I => assert SHAPE_TYPES[0] == t;
      case O => assert SHAPE_TYPES[1] == t;
      case T => assert SHAPE_TYPES[2] == t;
      case S => assert SHAPE_TYPES[3] == t;
      case Z => assert SHAPE_TYPES[4] == t;
      case J => assert SHAPE_TYPES[5] == t;
      case L => assert SHAPE_TYPES[6] == t;
    }
  }

  /** `d` is a whole number of block sizes. */
  predicate OnGrid(d: real)
  {
    (d / BLOCK_SIZE).Floor as real == d / BLOCK_SIZE
  }

  /**
   * The four blocks of a shape sit at distinct places of one grid of
   * block-sized cells: any two offsets differ by whole block sizes in each
   * direction, and by at least one block size in one of them, so the blocks
   * never overlap.
   */
  lemma OffsetsFormAGrid(t: ShapeType, i: nat, j: nat)
    requires i < 4 && j < 4
    ensures OnGrid(Offsets(t)[i].x - Offsets(t)[j].x)
    ensures OnGrid(Offsets(t)[i].y - Offsets(t)[j].y)
    ensures i != j ==> Offsets(t)[i] != Offsets(t)[j]
    ensures i != j ==> Apart(Offsets(t)[i], Offsets(t)[j])
  {
    var a, c := Offsets(t)[i], Offsets(t)[j];
    var dx, dy := a.x - c.x, a.y - c.y;
    var kx, ky := dx / BLOCK_SIZE, dy / BLOCK_SIZE;
    assert kx == -3.0 || kx == -2.0 || kx == -1.0 || kx == 0.0 || kx == 1.0 || kx == 2.0 || kx == 3.0;
    assert ky == -1.0 || ky == 0.0 || ky == 1.0;
  }

  /** Two block centres at least one block size apart horizontally or vertically. */
  predicate Apart(p: Point, q: Point)
  {
    p.x - q.x >= BLOCK_SIZE || q.x - p.x >= BLOCK_SIZE || p.y - q.y >= BLOCK_SIZE || q.y - p.y >= BLOCK_SIZE
  }

  /** Two block centres that are apart and whose offsets are whole block sizes in both directions. */
  predicate Spaced(p: Point, q: Point)
  {
    Apart(p, q) && OnGrid(p.x - q.x) && OnGrid(p.y - q.y)
  }

  // ---------------------------------------------------------------------
  // JavaScript string and number primitives used by the colour helpers

  predicate IsHexDigit(c: char)
  {
    '0' <= c <= '9' || 'a' <= c <= 'f' || 'A' <= c <= 'F'
  }

  /** A digit `toString(16)` writes: `0`-`9` or `a`-`f`. */
  predicate IsLowerHexDigit(c: char)
  {
    '0' <= c <= '9' || 'a' <= c <= 'f'
  }

  function DigitValue(c: char): (v: nat)
    requires IsHexDigit(c)
    ensures v < 16
  {
    if '0' <= c <= '9' then c as int - '0' as int
    else if 'a' <= c <= 'f' then c as int - 'a' as int + 10
    else c as int - 'A' as int + 10
  }

  /** The lowercase digit for a value below 16. */
  function LowerDigit(d: nat): (c: char)
    requires d < 16
    ensures IsLowerHexDigit(c)
  {
    if d < 10 then ('0' as int + d) as char else ('a' as int + d - 10) as char
  }

  /** A hex digit written in lowercase. */
  function ToLowerHex(c: char): char
    requires IsHexDigit(c)
  {
    if 'A' <= c <= 'F' then (c as int - 'A' as int + 'a' as int) as char else c
  }

  /** Reading a digit back gives its value, and writing a value gives the digit in lowercase. */
  lemma DigitRoundTrip(c: char, d: nat)
    requires IsHexDigit(c) && d < 16
    ensures DigitValue(LowerDigit(d)) == d
    ensures LowerDigit(DigitValue(c)) == ToLowerHex(c)
  {
  }

  /**
   * White space `parseInt` skips before the number: the white space and
   * line terminator characters of ECMAScript (section 7.1.4.1 of ECMA-262),
   * the space separators being those of the Unicode category Zs.
   */
  predicate IsJsWhiteSpace(c: char)
  {
    var u := c as int;
    || u == 0x09 || u == 0x0A || u == 0x0B || u == 0x0C || u == 0x0D || u == 0x20
    || u == 0xA0 || u == 0x1680 || (0x2000 <= u <= 0x200A)
    || u == 0x2028 || u == 0x2029 || u == 0x202F || u == 0x205F || u == 0x3000 || u == 0xFEFF
  }

  /** `s` without its leading white space. */
  function TrimStart(s: string): string
  {
    if |s| > 0 && IsJsWhiteSpace(s[0]) then TrimStart(s[1..]) else s
  }

  /** `TrimStart` drops exactly the white space before the first other character. */
  lemma {:induction false} TrimStartDropsLeadingSpace(s: string)
    ensures var r := TrimStart(s);
            && |r| <= |s| && r == s[|s| - |r|..]
            && (|r| > 0 ==> !IsJsWhiteSpace(r[0]))
            && forall k :: 0 <= k < |s| - |r| ==> IsJsWhiteSpace(s[k])
  {
    if |s| > 0 && IsJsWhiteSpace(s[0]) {
      TrimStartDropsLeadingSpace(s[1..]);
    }
  }

  /** The longest prefix of `s` made of hex digits. */
  function HexPrefix(s: string): (r: string)
    ensures forall k :: 0 <= k < |r| ==> IsHexDigit(r[k])
  {
    if |s| > 0 && IsHexDigit(s[0]) then [s[0]] + HexPrefix(s[1..]) else []
  }

  /** `HexPrefix` is a prefix of hex digits that cannot be extended. */
  lemma {:induction false} HexPrefixIsLongest(s: string)
    ensures var r := HexPrefix(s);
            && |r| <= |s| && r == s[..|r|]
            && (|r| < |s| ==> !IsHexDigit(s[|r|]))
  {
    if |s| > 0 && IsHexDigit(s[0]) {
      HexPrefixIsLongest(s[1..]);
    }
  }

  /** The value of a run of hex digits, most significant first. */
  function HexValue(ds: string): nat
    requires forall k :: 0 <= k < |ds| ==> IsHexDigit(ds[k])
  {
    if |ds| == 0 then 0
    else HexValue(ds[..|ds| - 1]) * 16 + DigitValue(ds[|ds| - 1])
  }

  /** `parseInt(s, 16)`; `None` stands for NaN. */
  function ParseIntHex(s: string): Option<int>
  {
    var t := TrimStart(s);
    var negative := |t| > 0 && t[0] == '-';
    var unsigned := if |t| > 0 && (t[0] == '-' || t[0] == '+') then t[1..] else t;
    var body := if |unsigned| >= 2 && unsigned[0] == '0' && (unsigned[1] == 'x' || unsigned[1] == 'X')
                then unsigned[2..] else unsigned;
    var digits := HexPrefix(body);
    var magnitude: int := HexValue(digits);
    if |digits| == 0 then None
    else if negative then Some(-magnitude)
    else Some(magnitude)
  }

  /** `s.substring(start, end)`: both indices clamped to the string, then taken in increasing order. */
  function Substring(s: string, start: int, end: int): (r: string)
    ensures 0 <= start <= end <= |s| ==> r == s[start..end]
  {
    var a := if start < 0 then 0 else if start > |s| then |s| else start;
    var b := if end < 0 then 0 else if end > |s| then |s| else end;
    if a <= b then s[a..b] else s[b..a]
  }

  /** The digits of `n` in base 16, lowercase, without leading zeros. */
  function ToHex(n: nat): (r: string)
    ensures |r| > 0
    ensures forall k :: 0 <= k < |r| ==> IsLowerHexDigit(r[k])
  {
    if n < 16 then [LowerDigit(n)] else ToHex(n / 16) + [LowerDigit(n % 16)]
  }

  /** `n.toString(16)` for an integer `n`. */
  function ToString16(n: int): string
  {
    if n < 0 then "-" + ToHex(-n) else ToHex(n)
  }

  /** `s.padStart(width, fill)` for a one-character filler. */
  function PadStart(s: string, width: nat, fill: char): string
  {
    if |s| >= width then s else seq(width - |s|, _ => fill) + s
  }

  /** `PadStart` puts fillers in front of `s` until it is `width` long, and never shortens it. */
  lemma PadStartFills(s: string, width: nat, fill: char)
    ensures var r := PadStart(s, width, fill);
            && |r| == (if |s| >= width then |s| else width)
            && r[|r| - |s|..] == s
            && forall k :: 0 <= k < |r| - |s| ==> r[k] == fill
  {
  }

  /** The digits of a number read back as the number, with no leading zero. */
  lemma {:induction false} ToHexReadsBack(n: nat)
    ensures HexValue(ToHex(n)) == n
    ensures n > 0 ==> ToHex(n)[0] != '0'
  {
    var r := ToHex(n);
    if n >= 16 {
      ToHexReadsBack(n / 16);
      assert r[..|r| - 1] == ToHex(n / 16);
      DigitRoundTrip('0', n % 16);
    } else {
      DigitRoundTrip('0', n);
      assert r[..0] == [];
    }
  }

  /** For a string without leading space, sign or `0x`, `parseInt` reads just its leading hex digits. */
  lemma ParsesPlain(s: string)
    requires |s| > 0 && !IsJsWhiteSpace(s[0]) && s[0] != '-' && s[0] != '+'
    requires !(|s| >= 2 && s[0] == '0' && (s[1] == 'x' || s[1] == 'X'))
    ensures ParseIntHex(s) == if |HexPrefix(s)| == 0 then None else Some(HexValue(HexPrefix(s)))
  {
    assert TrimStart(s) == s;
  }

  /**
   * `parseInt` reads a non-empty string of hex digits as the number it writes
   * (such a string can never start with the `0x` prefix, since `x` is not a digit).
   */
  lemma ParsesDigits(s: string)
    requires |s| > 0 && forall k :: 0 <= k < |s| ==> IsHexDigit(s[k])
    ensures ParseIntHex(s) == Some(HexValue(s))
  {
    assert IsHexDigit(s[0]);
    assert |s| >= 2 ==> IsHexDigit(s[1]);
    ParsesPlain(s);
    HexPrefixOfDigits(s);
  }

  /** Printing a non-negative number in base 16 and parsing it back gives the number again. */
  lemma ToHexRoundTrip(n: nat)
    ensures ParseIntHex(ToString16(n)) == Some(n)
  {
    ToHexReadsBack(n);
    ParsesDigits(ToHex(n));
  }

  /** A string of hex digits is its own longest hex prefix. */
  lemma {:induction false} HexPrefixOfDigits(s: string)
    requires forall k :: 0 <= k < |s| ==> IsHexDigit(s[k])
    ensures HexPrefix(s) == s
  {
    if |s| > 0 {
      HexPrefixOfDigits(s[1..]);
    }
  }

  // ---------------------------------------------------------------------
  // The colour helpers

  /** A colour channel after the arithmetic; `None` stands for NaN. */
  type Channel = Option<int>

  /** `Math.min(255, c + percent)`. */
  function Brighten(c: Channel, percent: int): Channel
  {
    match c
    case None => None
    case Some(v) => Some(if v + percent <= 255 then v + percent else 255)
  }

  /** `Math.max(0, c - percent)`. */
  function Dim(c: Channel, percent: int): Channel
  {
    match c
    case None => None
    case Some(v) => Some(if v - percent >= 0 then v - percent else 0)
  }

  /** `c.toString(16).padStart(2, '0')`; NaN prints as `NaN`. */
  function ChannelText(c: Channel): string
  {
    match c
    case None => "NaN"
    case Some(v) => PadStart(ToString16(v), 2, '0')
  }

  /** The three channels `parseInt` reads from characters 1-2, 3-4 and 5-6 of a colour string. */
  function ParseChannels(hexColor: string): (Channel, Channel, Channel)
  {
    (ParseIntHex(Substring(hexColor, 1, 3)),
     ParseIntHex(Substring(hexColor, 3, 5)),
     ParseIntHex(Substring(hexColor, 5, 7)))
  }

  /** `#` followed by the three channels, in order. */
  function FormatColor(r: Channel, g: Channel, b: Channel): string
  {
    "#" + ChannelText(r) + ChannelText(g) + ChannelText(b)
  }

  /** `getLighterColor`. */
  function GetLighterColor(hexColor: string, percent: int): string
  {
    var (r, g, b) := ParseChannels(hexColor);
    FormatColor(Brighten(r, percent), Brighten(g, percent), Brighten(b, percent))
  }

  /** `getDarkerColor`. */
  function GetDarkerColor(hexColor: string, percent: int): string
  {
    var (r, g, b) := ParseChannels(hexColor);
    FormatColor(Dim(r, percent), Dim(g, percent), Dim(b, percent))
  }

  /** A colour written `#rrggbb` with hex digits of either case. */
  predicate WellFormedColor(s: string)
  {
    |s| == 7 && s[0] == '#' && forall k :: 1 <= k < 7 ==> IsHexDigit(s[k])
  }

  /** A colour written `#rrggbb` with lowercase hex digits, as `toString(16)` writes them. */
  predicate CanonicalColor(s: string)
  {
    |s| == 7 && s[0] == '#' && forall k :: 1 <= k < 7 ==> IsLowerHexDigit(s[k])
  }

  /** Channel `k` (0 for red, 1 for green, 2 for blue) of a well-formed colour. */
  function ChannelValue(s: string, k: nat): nat
    requires WellFormedColor(s) && k < 3
  {
    DigitValue(s[1 + 2 * k]) * 16 + DigitValue(s[2 + 2 * k])
  }

  /** The two lowercase digits of a value below 256: the reference for one channel of the output. */
  function HexPair(v: nat): string
    requires v < 256
  {
    [LowerDigit(v / 16), LowerDigit(v % 16)]
  }

  /** Two hex digits parse as the two-digit number they write. */
  lemma PairParses(d: string)
    requires |d| == 2 && IsHexDigit(d[0]) && IsHexDigit(d[1])
    ensures ParseIntHex(d) == Some(DigitValue(d[0]) * 16 + DigitValue(d[1]))
  {
    ParsesDigits(d);
    assert d[..1] == [d[0]];
    assert HexValue(d[..1]) == DigitValue(d[0]) by {
      assert d[..1][..0] == [];
    }
    assert HexValue(d) == HexValue(d[..1]) * 16 + DigitValue(d[1]);
  }

  /** A value below 256, printed in base 16 and padded to two places, is its `HexPair`. */
  lemma PairPrints(v: nat)
    requires v < 256
    ensures PadStart(ToString16(v), 2, '0') == HexPair(v)
  {
    if v < 16 {
      assert ToHex(v) == [LowerDigit(v)];
    } else {
      assert ToHex(v / 16) == [LowerDigit(v / 16)];
    }
  }

  /** `HexPair` reads back as the value it was made from. */
  lemma HexPairReadsBack(v: nat)
    requires v < 256
    ensures IsLowerHexDigit(HexPair(v)[0]) && IsLowerHexDigit(HexPair(v)[1])
    ensures DigitValue(HexPair(v)[0]) * 16 + DigitValue(HexPair(v)[1]) == v
  {
    DigitRoundTrip('0', v / 16);
    DigitRoundTrip('0', v % 16);
  }

  /** Channel `k` of a well-formed colour is read exactly. */
  lemma ChannelParses(s: string, k: nat)
    requires WellFormedColor(s) && k < 3
    ensures ParseIntHex(Substring(s, 1 + 2 * k, 3 + 2 * k)) == Some(ChannelValue(s, k))
  {
    var d := s[1 + 2 * k..3 + 2 * k];
    assert Substring(s, 1 + 2 * k, 3 + 2 * k) == d;
    assert d[0] == s[1 + 2 * k] && d[1] == s[2 + 2 * k];
    PairParses(d);
  }

  /** The channels of a well-formed colour are read exactly. */
  lemma ChannelsOfWellFormed(s: string)
    requires WellFormedColor(s)
    ensures ParseChannels(s) == (Some(ChannelValue(s, 0)), Some(ChannelValue(s, 1)), Some(ChannelValue(s, 2)))
  {
    assert ParseIntHex(Substring(s, 1, 3)) == Some(ChannelValue(s, 0)) by {
      ChannelParses(s, 0);
    }
    assert ParseIntHex(Substring(s, 3, 5)) == Some(ChannelValue(s, 1)) by {
      ChannelParses(s, 1);
    }
    assert ParseIntHex(Substring(s, 5, 7)) == Some(ChannelValue(s, 2)) by {
      ChannelParses(s, 2);
    }
  }

  /** `min(255, c + percent)` for a channel value. */
  function Raised(c: nat, percent: nat): nat
  {
    if c + percent <= 255 then c + percent else 255
  }

  /** `max(0, c - percent)` for a channel value. */
  function Lowered(c: nat, percent: nat): nat
  {
    if c - percent >= 0 then c - percent else 0
  }

  /** Three channel values below 256 print as `#` and their three `HexPair`s. */
  lemma FormatsChannels(r: nat, g: nat, b: nat)
    requires r < 256 && g < 256 && b < 256
    ensures FormatColor(Some(r), Some(g), Some(b)) == "#" + HexPair(r) + HexPair(g) + HexPair(b)
    ensures CanonicalColor("#" + HexPair(r) + HexPair(g) + HexPair(b))
  {
    PairPrints(r);
    PairPrints(g);
    PairPrints(b);
    assert ChannelText(Some(r)) == HexPair(r);
    assert ChannelText(Some(g)) == HexPair(g);
    assert ChannelText(Some(b)) == HexPair(b);
    var out := "#" + HexPair(r) + HexPair(g) + HexPair(b);
    forall k | 1 <= k < 7 ensures IsLowerHexDigit(out[k]) {
      if k < 3 {
        assert out[k] == HexPair(r)[k - 1];
      } else if k < 5 {
        assert out[k] == HexPair(g)[k - 3];
      } else {
        assert out[k] == HexPair(b)[k - 5];
      }
    }
  }

  /**
   * For a well-formed colour and a non-negative shift, the lighter colour
   * is `#` and three lowercase two-digit channels, each the input channel
   * raised by `percent` and capped at 255.
   */
  lemma LighterColor(hexColor: string, percent: nat)
    requires WellFormedColor(hexColor)
    ensures GetLighterColor(hexColor, percent)
            == "#" + HexPair(Raised(ChannelValue(hexColor, 0), percent))
                   + HexPair(Raised(ChannelValue(hexColor, 1), percent))
                   + HexPair(Raised(ChannelValue(hexColor, 2), percent))
    ensures CanonicalColor(GetLighterColor(hexColor, percent))
  {
    LighterChannels(hexColor, percent);
    FormatsChannels(Raised(ChannelValue(hexColor, 0), percent), Raised(ChannelValue(hexColor, 1), percent),
                    Raised(ChannelValue(hexColor, 2), percent));
  }

  /** The lighter colour prints the three raised channels. */
  lemma LighterChannels(hexColor: string, percent: nat)
    requires WellFormedColor(hexColor)
    ensures GetLighterColor(hexColor, percent)
            == FormatColor(Some(Raised(ChannelValue(hexColor, 0), percent)), Some(Raised(ChannelValue(hexColor, 1), percent)),
                           Some(Raised(ChannelValue(hexColor, 2), percent)))
  {
    ChannelsOfWellFormed(hexColor);
  }

  /**
   * For a well-formed colour and a non-negative shift, the darker colour is
   * `#` and three lowercase two-digit channels, each the input channel
   * lowered by `percent` and floored at 0.
   */
  lemma DarkerColor(hexColor: string, percent: nat)
    requires WellFormedColor(hexColor)
    ensures GetDarkerColor(hexColor, percent)
            == "#" + HexPair(Lowered(ChannelValue(hexColor, 0), percent))
                   + HexPair(Lowered(ChannelValue(hexColor, 1), percent))
                   + HexPair(Lowered(ChannelValue(hexColor, 2), percent))
    ensures CanonicalColor(GetDarkerColor(hexColor, percent))
  {
    var r, g, b := Lowered(ChannelValue(hexColor, 0), percent), Lowered(ChannelValue(hexColor, 1), percent),
                   Lowered(ChannelValue(hexColor, 2), percent);
    assert GetDarkerColor(hexColor, percent) == FormatColor(Some(r), Some(g), Some(b)) by {
      ChannelsOfWellFormed(hexColor);
      assert Dim(Some(ChannelValue(hexColor, 0)), percent) == Some(r);
      assert Dim(Some(ChannelValue(hexColor, 1)), percent) == Some(g);
      assert Dim(Some(ChannelValue(hexColor, 2)), percent) == Some(b);
    }
    FormatsChannels(r, g, b);
  }

  /** `#` and three `HexPair`s form a well-formed colour whose channels are the three values. */
  lemma FormattedChannels(r: nat, g: nat, b: nat)
    requires r < 256 && g < 256 && b < 256
    ensures var c := "#" + HexPair(r) + HexPair(g) + HexPair(b);
            && WellFormedColor(c)
            && ChannelValue(c, 0) == r && ChannelValue(c, 1) == g && ChannelValue(c, 2) == b
  {
    HexPairReadsBack(r);
    HexPairReadsBack(g);
    HexPairReadsBack(b);
    var c := "#" + HexPair(r) + HexPair(g) + HexPair(b);
    assert c[1] == HexPair(r)[0] && c[2] == HexPair(r)[1];
    assert c[3] == HexPair(g)[0] && c[4] == HexPair(g)[1];
    assert c[5] == HexPair(b)[0] && c[6] == HexPair(b)[1];
  }

  /** Each channel of the lighter colour reads back as the input channel raised and capped. */
  lemma LighterChannelsReadBack(hexColor: string, percent: nat)
    requires WellFormedColor(hexColor)
    ensures var c := GetLighterColor(hexColor, percent);
            && WellFormedColor(c)
            && ChannelValue(c, 0) == Raised(ChannelValue(hexColor, 0), percent)
            && ChannelValue(c, 1) == Raised(ChannelValue(hexColor, 1), percent)
            && ChannelValue(c, 2) == Raised(ChannelValue(hexColor, 2), percent)
  {
    var r, g, b := Raised(ChannelValue(hexColor, 0), percent), Raised(ChannelValue(hexColor, 1), percent),
                   Raised(ChannelValue(hexColor, 2), percent);
    LighterColor(hexColor, percent);
    FormattedChannels(r, g, b);
  }

  /** Each channel of the darker colour reads back as the input channel lowered and floored. */
  lemma DarkerChannelsReadBack(hexColor: string, percent: nat)
    requires WellFormedColor(hexColor)
    ensures var c := GetDarkerColor(hexColor, percent);
            && WellFormedColor(c)
            && ChannelValue(c, 0) == Lowered(ChannelValue(hexColor, 0), percent)
            && ChannelValue(c, 1) == Lowered(ChannelValue(hexColor, 1), percent)
            && ChannelValue(c, 2) == Lowered(ChannelValue(hexColor, 2), percent)
  {
    var r, g, b := Lowered(ChannelValue(hexColor, 0), percent), Lowered(ChannelValue(hexColor, 1), percent),
                   Lowered(ChannelValue(hexColor, 2), percent);
    DarkerColor(hexColor, percent);
    FormattedChannels(r, g, b);
  }

  /** The digits of `s` in lowercase. */
  function LowerCased(s: string): string
    requires forall k :: 0 <= k < |s| ==> IsHexDigit(s[k])
  {
    seq(|s|, k requires 0 <= k < |s| => ToLowerHex(s[k]))
  }

  /** Channel `k` printed again is the two digits it was read from, in lowercase. */
  lemma ChannelReprints(hexColor: string, k: nat)
    requires WellFormedColor(hexColor) && k < 3
    ensures HexPair(ChannelValue(hexColor, k)) == [ToLowerHex(hexColor[1 + 2 * k]), ToLowerHex(hexColor[2 + 2 * k])]
  {
    var hi, lo := DigitValue(hexColor[1 + 2 * k]), DigitValue(hexColor[2 + 2 * k]);
    assert (hi * 16 + lo) / 16 == hi && (hi * 16 + lo) % 16 == lo;
    DigitRoundTrip(hexColor[1 + 2 * k], 0);
    DigitRoundTrip(hexColor[2 + 2 * k], 0);
  }

  /** Re-printing the three channels of a colour lowercases its digits. */
  lemma ReprintedColor(hexColor: string)
    requires WellFormedColor(hexColor)
    ensures "#" + HexPair(ChannelValue(hexColor, 0)) + HexPair(ChannelValue(hexColor, 1)) + HexPair(ChannelValue(hexColor, 2))
            == "#" + LowerCased(hexColor[1..])
  {
    ChannelReprints(hexColor, 0);
    ChannelReprints(hexColor, 1);
    ChannelReprints(hexColor, 2);
  }

  /** With a zero shift, both helpers give back the input colour with its digits in lowercase. */
  lemma ZeroShift(hexColor: string)
    requires WellFormedColor(hexColor)
    ensures GetLighterColor(hexColor, 0) == "#" + LowerCased(hexColor[1..])
    ensures GetDarkerColor(hexColor, 0) == "#" + LowerCased(hexColor[1..])
  {
    LighterColor(hexColor, 0);
    DarkerColor(hexColor, 0);
    ReprintedColor(hexColor);
  }

  /** The shape colours are all well formed. */
  lemma ShapeColorsWellFormed(t: ShapeType)
    ensures WellFormedColor(Color(t))
  {
  }

  /**
   * Cyan lightened by 40: the border of the even-index blocks of an I
   * piece; the odd-index blocks keep `#00FFFF` (see `IPieceRender`).
   */
  lemma LighterCyan()
    ensures GetLighterColor(Color(I), STROKE_LIGHTEN) == "#28ffff"
  {
    LighterColor(Color(I), STROKE_LIGHTEN);
    CyanPurpleChannels();
  }

  /** Cyan darkened by 30: the fill of every block of an I piece. */
  lemma DarkerCyan()
    ensures GetDarkerColor(Color(I), GRADIENT_DARKEN) == "#00e1e1"
  {
    DarkerColor(Color(I), GRADIENT_DARKEN);
    CyanPurpleChannels();
  }

  /** Purple lightened by 40: the border of every block of a T piece. */
  lemma LighterPurple()
    ensures GetLighterColor(Color(T), STROKE_LIGHTEN) == "#a828a8"
  {
    LighterColor(Color(T), STROKE_LIGHTEN);
    CyanPurpleChannels();
  }

  /** The channel arithmetic behind the three colours above. */
  lemma CyanPurpleChannels()
    ensures var cyan, purple := Color(I), Color(T);
            && "#" + HexPair(Raised(ChannelValue(cyan, 0), 40)) + HexPair(Raised(ChannelValue(cyan, 1), 40))
                   + HexPair(Raised(ChannelValue(cyan, 2), 40)) == "#28ffff"
            && "#" + HexPair(Lowered(ChannelValue(cyan, 0), 30)) + HexPair(Lowered(ChannelValue(cyan, 1), 30))
                   + HexPair(Lowered(ChannelValue(cyan, 2), 30)) == "#00e1e1"
            && "#" + HexPair(Raised(ChannelValue(purple, 0), 40)) + HexPair(Raised(ChannelValue(purple, 1), 40))
                   + HexPair(Raised(ChannelValue(purple, 2), 40)) == "#a828a8"
  {
    assert ChannelValue(Color(I), 0) == 0 && ChannelValue(Color(I), 1) == 255 && ChannelValue(Color(I), 2) == 255;
    assert ChannelValue(Color(T), 0) == 128 && ChannelValue(Color(T), 1) == 0 && ChannelValue(Color(T), 2) == 128;
    assert HexPair(40) == "28" && HexPair(255) == "ff" && HexPair(0) == "00";
    assert HexPair(225) == "e1" && HexPair(168) == "a8";
  }

  // ---------------------------------------------------------------------
  // Blocks and pieces

  /** The special effects a piece type asks for. `chamfer` is the corner radius. */
  datatype BlockEffects = BlockEffects(useGradient: bool, chamfer: Option<real>, internalPattern: bool)

  const NO_EFFECTS: BlockEffects := BlockEffects(false, None, false)

  /** The `switch` on the type in `createRandomTetromino`. */
  function EffectsOf(t: ShapeType): (e: BlockEffects)
  {
    match t
    case I => BlockEffects(true, None, false)
    case O => BlockEffects(false, Some(BLOCK_SIZE * 0.2), false)
    case T => BlockEffects(false, None, true)
    case _ => NO_EFFECTS
  }

  /** I gets the gradient, O a chamfer of a fifth of a block, T the internal pattern, the others nothing. */
  lemma EffectsByType(t: ShapeType)
    ensures EffectsOf(t).useGradient <==> t == I
    ensures EffectsOf(t).chamfer.Some? <==> t == O
    ensures t == O ==> EffectsOf(t).chamfer == Some(6.0)
    ensures EffectsOf(t).internalPattern <==> t == T
  {
  }

  /**
   * A block as `Bodies.rectangle` builds it from `createBlock`'s options:
   * the body, plus the options the game passes that the body model has no
   * field for.
   */
  datatype Block = Block(body: Body, chamfer: Option<real>, friction: real, restitution: real, index: nat)

  /** The render options `createBlock` computes for a block of colour `color`. */
  function BlockRender(color: string, effects: BlockEffects, index: nat): Render
  {
    var lighterColor := GetLighterColor(color, STROKE_LIGHTEN);
    if effects.useGradient then
      Render(Some(GetDarkerColor(color, GRADIENT_DARKEN)),
             Some(if index % 2 == 0 then lighterColor else color), Some(2.0))
    else Render(Some(color), Some(lighterColor), Some(2.0))
  }

  /** `createBlock`: a movable square of one block size centred on (x, y). */
  function CreateBlock(id: nat, x: real, y: real, color: string, bodyLabel: string,
                       effects: BlockEffects, index: nat): Block
  {
    var body := Rectangle(id, x, y, BLOCK_SIZE, BLOCK_SIZE, false, false,
                          BlockRender(color, effects, index), bodyLabel, effects.internalPattern);
    Block(body, effects.chamfer, FRICTION, RESTITUTION, index)
  }

  /**
   * A block is a square of one block size around its centre, drawn with
   * a 2-pixel border.  Without the gradient its fill is the colour and its
   * border the colour lightened by 40; with it the fill is the colour
   * darkened by 30 and the border alternates between the lightened colour
   * (even index) and the colour itself (odd index).  Only the internal
   * pattern effect marks the body.
   */
  lemma BlockShape(id: nat, x: real, y: real, color: string, bodyLabel: string, effects: BlockEffects, index: nat)
    ensures var b := CreateBlock(id, x, y, color, bodyLabel, effects, index).body;
            && b.position == Point(x, y)
            && HighestY(b.vertices) == y - BLOCK_SIZE / 2.0 && LowestY(b.vertices) == y + BLOCK_SIZE / 2.0
            && LeftX(b.vertices) == x - BLOCK_SIZE / 2.0 && RightX(b.vertices) == x + BLOCK_SIZE / 2.0
            && b.area == BLOCK_SIZE * BLOCK_SIZE
            && !b.isStatic && !b.isSensor
            && b.bodyLabel == bodyLabel
            && b.hasInternalPattern == effects.internalPattern
            && b.render.lineWidth == Some(2.0)
            && (!effects.useGradient ==>
                  b.render.fillStyle == Some(color)
                  && b.render.strokeStyle == Some(GetLighterColor(color, STROKE_LIGHTEN)))
            && (effects.useGradient ==>
                  && b.render.fillStyle == Some(GetDarkerColor(color, GRADIENT_DARKEN))
                  && b.render.strokeStyle == Some(if index % 2 == 0 then GetLighterColor(color, STROKE_LIGHTEN) else color))
  {
    RectangleExtent(id, x, y, BLOCK_SIZE, BLOCK_SIZE, false, false,
                    BlockRender(color, effects, index), bodyLabel, effects.internalPattern);
  }

  /** The compound body of a piece: its blocks as parts, its label and its type. */
  datatype Piece = Piece(parts: seq<Block>, bodyLabel: string, tetrominoType: string, friction: real, restitution: real)

  /** The label every block and the piece carry. */
  function PieceLabel(t: ShapeType): string
  {
    "tetromino-" + Name(t)
  }

  /**
   * `createRandomTetromino(x, y)` for the shape type `t` the random draw
   * picked; the blocks get the identities `firstId` to `firstId + 3`.
   */
  function CreateTetromino(t: ShapeType, x: real, y: real, firstId: nat): Piece
  {
    var blocks := seq(4, k requires 0 <= k < 4 => PieceBlock(t, x, y, firstId, k));
    Piece(blocks, PieceLabel(t), Name(t), FRICTION, RESTITUTION)
  }

  /** Block k of the piece: the `createBlock` call at the k-th offset. */
  function PieceBlock(t: ShapeType, x: real, y: real, firstId: nat, k: nat): Block
    requires k < 4
  {
    CreateBlock(firstId + k, x + Offsets(t)[k].x, y + Offsets(t)[k].y, Color(t), PieceLabel(t), EffectsOf(t), k)
  }

  /**
   * A piece has four blocks; block k sits at the spawn point moved by the
   * k-th offset of its shape, carries index k and the piece's label, colour
   * and effects; the piece is labelled `tetromino-<type>` and records its
   * type.
   */
  lemma PieceLayout(t: ShapeType, x: real, y: real, firstId: nat, k: nat)
    requires k < 4
    ensures var p := CreateTetromino(t, x, y, firstId);
            && |p.parts| == 4
            && p.bodyLabel == "tetromino-" + Name(t) && p.tetrominoType == Name(t)
            && p.parts[k].body.position == Point(x + Offsets(t)[k].x, y + Offsets(t)[k].y)
            && p.parts[k].body.id == firstId + k
            && p.parts[k].index == k
            && p.parts[k].body.bodyLabel == p.bodyLabel
            && p.parts[k].body.render == BlockRender(Color(t), EffectsOf(t), k)
            && p.parts[k].chamfer == EffectsOf(t).chamfer
            && p.parts[k].body.hasInternalPattern == (t == T)
  {
    var p := CreateTetromino(t, x, y, firstId);
    assert p.parts[k] == PieceBlock(t, x, y, firstId, k);
    assert EffectsOf(t).internalPattern == (t == T);
  }

  /**
   * The blocks of an I piece are filled cyan darkened by 30; the even-index
   * blocks get the lightened border and the odd-index ones the plain cyan.
   */
  lemma IPieceRender(x: real, y: real, firstId: nat, k: nat)
    requires k < 4
    ensures CreateTetromino(I, x, y, firstId).parts[k].body.render
            == Render(Some("#00e1e1"), Some(if k % 2 == 0 then "#28ffff" else "#00FFFF"), Some(2.0))
  {
    PieceLayout(I, x, y, firstId, k);
    LighterCyan();
    DarkerCyan();
  }

  /** Every block of a T piece is filled purple and bordered purple lightened by 40. */
  lemma TPieceRender(x: real, y: real, firstId: nat, k: nat)
    requires k < 4
    ensures CreateTetromino(T, x, y, firstId).parts[k].body.render
            == Render(Some("#800080"), Some("#a828a8"), Some(2.0))
  {
    PieceLayout(T, x, y, firstId, k);
    LighterPurple();
  }

  /**
   * The blocks of a piece never overlap: any two of them are at least one
   * block size apart in one direction, and their positions differ by whole
   * block sizes in both.
   */
  lemma PieceBlocksDisjoint(t: ShapeType, x: real, y: real, firstId: nat, i: nat, j: nat)
    requires i < 4 && j < 4 && i != j
    ensures var p := CreateTetromino(t, x, y, firstId);
            Spaced(p.parts[i].body.position, p.parts[j].body.position)
  {
    BlockPosition(t, x, y, firstId, i);
    BlockPosition(t, x, y, firstId, j);
    var p := CreateTetromino(t, x, y, firstId);
    Translated(t, i, j, x, y, p.parts[i].body.position, p.parts[j].body.position);
  }

  /** Block k of a piece sits at the spawn point moved by the k-th offset. */
  lemma BlockPosition(t: ShapeType, x: real, y: real, firstId: nat, k: nat)
    requires k < 4
    ensures |CreateTetromino(t, x, y, firstId).parts| == 4
    ensures CreateTetromino(t, x, y, firstId).parts[k].body.position == Point(x + Offsets(t)[k].x, y + Offsets(t)[k].y)
  {
    PieceLayout(t, x, y, firstId, k);
  }

  /** Moving two offsets of a shape by the same spawn point keeps them apart and on one grid. */
  lemma Translated(t: ShapeType, i: nat, j: nat, x: real, y: real, p: Point, q: Point)
    requires i < 4 && j < 4 && i != j
    requires p == Point(x + Offsets(t)[i].x, y + Offsets(t)[i].y)
    requires q == Point(x + Offsets(t)[j].x, y + Offsets(t)[j].y)
    ensures Spaced(p, q)
  {
    OffsetsFormAGrid(t, i, j);
    assert p.x - q.x == Offsets(t)[i].x - Offsets(t)[j].x;
    assert p.y - q.y == Offsets(t)[i].y - Offsets(t)[j].y;
  }
}
