/**
 * The ASCII grid dump written by AnalyticGrid::writeAsi: a header of 510
 * integer slots (1-based), printed ten to a line in columns eight wide, then
 * for every level and every azimuth row one block per field, its values eight
 * to a line.
 *
 * The grid extents are products of floating-point values truncated to int;
 * they enter the model as the integers already computed (`Extents`). The
 * printed text of each data value (scientific notation, three digits, ten
 * columns) is a parameter `cell` of the model.
 */
module AnalyticGrid {
  import opened Wrappers
  import Timestamps

  /** The number of header slots. */
  const Slots: nat := 510

  /** The value of every slot nothing else is written to. */
  const Missing: int := -999

  /** Two blanks packed into one slot: 256 * 32 + 32. */
  const Blanks: int := 8224

  /** The most fields whose five slots still fit behind slot 175: field 66 ends at slot 510. */
  const MaxFields: nat := 67

  datatype Extents = Extents(xMin: int, xMax: int, yMin: int, yMax: int,
                             zMin: int, zMax: int, xCentre: int, yCentre: int)

  /** The grid: its field names, extents, dimensions and spacings (km). */
  datatype Grid = Grid(fieldNames: seq<string>, extents: Extents, iDim: nat, jDim: nat, kDim: nat,
                       iGridsp: real, jGridsp: real, kGridsp: real)

  predicate Ascii(name: string)
  {
    forall k :: 0 <= k < |name| ==> name[k] as int < 128
  }

  predicate ValidGrid(g: Grid)
  {
    |g.fieldNames| <= MaxFields && forall n :: 0 <= n < |g.fieldNames| ==> Ascii(g.fieldNames[n])
  }

  /** The character code of character k of a name; a missing character reads as the terminating 0. */
  function CharCode(name: string, k: nat): (c: int)
    requires Ascii(name)
    ensures 0 <= c < 128
    ensures k < |name| ==> c == name[k] as int
  {
    if k < |name| then name[k] as int else 0
  }

  /** The first two characters of a name packed into one slot. */
  function NameCode(name: string): int
    requires Ascii(name)
  {
    CharCode(name, 0) * 256 + CharCode(name, 1)
  }

  /** The packed code gives both characters back. */
  lemma NameCodeUnpacks(name: string)
    requires Ascii(name)
    ensures 0 <= NameCode(name) < 32768
    ensures NameCode(name) / 256 == CharCode(name, 0) && NameCode(name) % 256 == CharCode(name, 1)
  {
  }

  /** The C conversion of a floating-point value to int: toward zero. */
  function Trunc(x: real): (r: int)
    ensures x >= 0.0 ==> r as real <= x < r as real + 1.0
    ensures x < 0.0 ==> r as real - 1.0 < x <= r as real
  {
    if x >= 0.0 then x.Floor else -((-x).Floor)
  }

  /** A spacing slot: the spacing truncated to whole km, then scaled by 1000. */
  function SpacingSlot(sp: real): int
  {
    Trunc(sp) * 1000
  }

  /** The spacing is truncated before it is scaled, so a spacing under 1 km is written as 0. */
  lemma SpacingSlotTruncates(sp: real)
    ensures SpacingSlot(sp) % 1000 == 0
    ensures 0.0 <= sp < 1.0 ==> SpacingSlot(sp) == 0
    ensures sp >= 0.0 ==> SpacingSlot(sp) as real <= sp * 1000.0 < SpacingSlot(sp) as real + 1000.0
  {
  }

  /** Every slot before anything is assigned. */
  function Initial(): (h: seq<int>)
    ensures |h| == Slots + 1 && forall s :: 0 <= s <= Slots ==> h[s] == Missing
  {
    seq(Slots + 1, s => Missing)
  }

  /** The five slots of field n. */
  function WithField(h: seq<int>, n: nat, name: string): (r: seq<int>)
    requires |h| == Slots + 1 && n < MaxFields && Ascii(name)
    ensures |r| == Slots + 1
  {
    h[176 + 5 * n := NameCode(name)][177 + 5 * n := Blanks][178 + 5 * n := Blanks]
     [179 + 5 * n := Blanks][180 + 5 * n := 1]
  }

  /** Slot s after field n is written: one of its five slots, or as before. */
  lemma WithFieldSlot(h: seq<int>, n: nat, name: string, s: int)
    requires |h| == Slots + 1 && n < MaxFields && Ascii(name) && 0 <= s <= Slots
    ensures WithField(h, n, name)[s] ==
      if s == 176 + 5 * n then NameCode(name)
      else if s == 180 + 5 * n then 1
      else if 177 + 5 * n <= s <= 179 + 5 * n then Blanks
      else h[s]
  {
  }

  /** The slots after the field count and the first m fields are written. */
  function FieldsUpTo(names: seq<string>, m: nat): (h: seq<int>)
    requires m <= |names| <= MaxFields && forall n :: 0 <= n < |names| ==> Ascii(names[n])
    ensures |h| == Slots + 1
  {
    if m == 0 then Initial()[175 := |names|]
    else WithField(FieldsUpTo(names, m - 1), m - 1, names[m - 1])
  }

  /** Slots 16, 17, 33 to 38, 40, 68 and 69: the file kind, the unused position and the scale factors. */
  predicate IdentitySlot(s: int)
  {
    s == 16 || s == 17 || 33 <= s <= 38 || s == 40 || s == 68 || s == 69
  }

  /** Slots 160 to 174: extents, dimension, spacing and axis number of x, y and z. */
  predicate AxisSlot(s: int)
  {
    160 <= s <= 174
  }

  /** Slots 303 and 309 to 311: the radar count and the index of the centre. */
  predicate CentreSlot(s: int)
  {
    s == 303 || 309 <= s <= 311
  }

  /** The slots the header writes after the fields, whatever the fields wrote there. */
  predicate FixedSlot(s: int)
  {
    IdentitySlot(s) || AxisSlot(s) || CentreSlot(s)
  }

  /** The value writeAsi gives an identity slot. */
  function IdentityValue(s: int): int
    requires IdentitySlot(s)
  {
    if s == 16 then 17217 else if s == 17 then 21076
    else if 33 <= s <= 38 then 0 else if s == 40 then 90
    else if s == 68 then 100 else 64
  }

  /** Slots 160 to 174 in order: for x, y and z the scaled extents, the dimension, the spacing and the axis number. */
  function AxisValues(g: Grid): (r: seq<int>)
    ensures |r| == 15
  {
    var e := g.extents;
    [e.xMin, e.xMax, g.iDim, SpacingSlot(g.iGridsp), 1,
     e.yMin, e.yMax, g.jDim, SpacingSlot(g.jGridsp), 2,
     e.zMin, e.zMax, g.kDim, SpacingSlot(g.kGridsp), 3]
  }

  /** The value writeAsi gives a centre slot. */
  function CentreValue(g: Grid, s: int): int
    requires CentreSlot(s)
  {
    if s == 303 then 1 else if s == 309 then g.extents.xCentre else if s == 310 then g.extents.yCentre else 0
  }

  /** The value writeAsi gives a fixed slot. */
  function FixedValue(g: Grid, s: int): int
    requires FixedSlot(s)
  {
    if IdentitySlot(s) then IdentityValue(s)
    else if AxisSlot(s) then AxisValues(g)[s - 160]
    else CentreValue(g, s)
  }

  /**
   * The header of writeAsi. The fixed slots are assigned after the fields,
   * so where they meet a field's slots they win.
   */
  function Header(g: Grid): (h: seq<int>)
    requires ValidGrid(g)
    ensures |h| == Slots + 1
  {
    var f := FieldsUpTo(g.fieldNames, |g.fieldNames|);
    seq(Slots + 1, s requires 0 <= s <= Slots => if FixedSlot(s) then FixedValue(g, s) else f[s])
  }

  /** Field n's five slots hold its packed name, three pairs of blanks and a 1. */
  lemma {:induction false} FieldsUpToField(names: seq<string>, m: nat, n: nat, t: nat)
    requires m <= |names| <= MaxFields && forall k :: 0 <= k < |names| ==> Ascii(names[k])
    requires n < m && t < 5
    ensures FieldsUpTo(names, m)[176 + 5 * n + t] ==
      if t == 0 then NameCode(names[n]) else if t == 4 then 1 else Blanks
  {
    WithFieldSlot(FieldsUpTo(names, m - 1), m - 1, names[m - 1], 176 + 5 * n + t);
    if n < m - 1 {
      FieldsUpToField(names, m - 1, n, t);
    }
  }

  /** Outside the fields' slots, slot 175 holds the field count and every other slot -999. */
  lemma {:induction false} FieldsUpToOther(names: seq<string>, m: nat, s: int)
    requires m <= |names| <= MaxFields && forall k :: 0 <= k < |names| ==> Ascii(names[k])
    requires 0 <= s <= Slots && !(176 <= s < 176 + 5 * m)
    ensures FieldsUpTo(names, m)[s] == if s == 175 then |names| else Missing
  {
    if m > 0 {
      FieldsUpToOther(names, m - 1, s);
      WithFieldSlot(FieldsUpTo(names, m - 1), m - 1, names[m - 1], s);
    }
  }

  /** Slot 175 holds the number of fields. */
  lemma HeaderFieldCount(g: Grid)
    requires ValidGrid(g)
    ensures Header(g)[175] == |g.fieldNames|
  {
    FieldsUpToOther(g.fieldNames, |g.fieldNames|, 175);
  }

  /**
   * Field n's slots hold its packed name, three pairs of blanks and a 1,
   * except where a fixed slot written later falls among them.
   */
  lemma HeaderFieldSlots(g: Grid, n: nat, t: nat)
    requires ValidGrid(g) && n < |g.fieldNames| && t < 5 && !FixedSlot(176 + 5 * n + t)
    ensures Header(g)[176 + 5 * n + t] ==
      if t == 0 then NameCode(g.fieldNames[n]) else if t == 4 then 1 else Blanks
  {
    FieldsUpToField(g.fieldNames, |g.fieldNames|, n, t);
  }

  /** With at most 25 fields no fixed slot falls among the field slots. */
  lemma FewFieldsNotOverwritten(g: Grid, n: nat, t: nat)
    requires ValidGrid(g) && |g.fieldNames| <= 25 && n < |g.fieldNames| && t < 5
    ensures !FixedSlot(176 + 5 * n + t)
  {
  }

  /** With 26 fields or more, one of field 25's blank slots (303) holds the radar count instead. */
  lemma ManyFieldsOverwritten(g: Grid)
    requires ValidGrid(g) && |g.fieldNames| >= 26
    ensures Header(g)[178 + 5 * 25] == 1 != Blanks
  {
  }

  /** Every slot neither fixed nor the count nor a field's keeps -999. */
  lemma HeaderUnassigned(g: Grid, s: int)
    requires ValidGrid(g) && 1 <= s <= Slots && !FixedSlot(s) && s != 175
    requires !(176 <= s < 176 + 5 * |g.fieldNames|)
    ensures Header(g)[s] == Missing
  {
    FieldsUpToOther(g.fieldNames, |g.fieldNames|, s);
  }

  /** The fixed slots, including the three spacings truncated before scaling. */
  lemma HeaderFixedSlots(g: Grid)
    requires ValidGrid(g)
    ensures var h := Header(g);
      h[16] == 17217 && h[17] == 21076 && h[40] == 90 && h[68] == 100 && h[69] == 64 &&
      (forall b :: 33 <= b <= 38 ==> h[b] == 0) &&
      h[162] == g.iDim && h[167] == g.jDim && h[172] == g.kDim &&
      h[163] == Trunc(g.iGridsp) * 1000 && h[168] == Trunc(g.jGridsp) * 1000 &&
      h[173] == Trunc(g.kGridsp) * 1000 &&
      h[164] == 1 && h[169] == 2 && h[174] == 3 && h[303] == 1 && h[311] == 0
  {
    HeaderIdentitySlots(g);
    HeaderAxisSlots(g);
  }

  lemma HeaderIdentitySlots(g: Grid)
    requires ValidGrid(g)
    ensures var h := Header(g);
      h[16] == 17217 && h[17] == 21076 && h[40] == 90 && h[68] == 100 && h[69] == 64 &&
      (forall b :: 33 <= b <= 38 ==> h[b] == 0) && h[303] == 1 && h[311] == 0
  {
  }

  lemma HeaderAxisSlots(g: Grid)
    requires ValidGrid(g)
    ensures var h := Header(g);
      h[162] == g.iDim && h[167] == g.jDim && h[172] == g.kDim &&
      h[163] == Trunc(g.iGridsp) * 1000 && h[168] == Trunc(g.jGridsp) * 1000 &&
      h[173] == Trunc(g.kGridsp) * 1000 &&
      h[164] == 1 && h[169] == 2 && h[174] == 3
  {
  }

  // Text as QTextStream writes it: every item, the line break included, is
  // right-aligned in the field width in effect, which persists until reset.

  /** The number of decimal digits of n. */
  function NumDigits(n: nat): (d: nat)
    ensures d >= 1
  {
    if n < 10 then 1 else 1 + NumDigits(n / 10)
  }

  lemma {:induction false} NumDigitsFits(n: nat)
    ensures n < Timestamps.Pow10(NumDigits(n))
  {
    if n >= 10 {
      NumDigitsFits(n / 10);
    }
  }

  /** A number below 10^k has at most k digits (0 still takes one). */
  lemma {:induction false} NumDigitsBound(n: nat, k: nat)
    requires k >= 1 && n < Timestamps.Pow10(k)
    ensures NumDigits(n) <= k
  {
    if n >= 10 {
      assert Timestamps.Pow10(1) == 10;
      assert k >= 2;
      assert Timestamps.Pow10(k) == 10 * Timestamps.Pow10(k - 1);
      assert n / 10 < Timestamps.Pow10(k - 1);
      NumDigitsBound(n / 10, k - 1);
      assert NumDigits(n) == 1 + NumDigits(n / 10);
    }
  }

  /** n in decimal, without leading zeros. */
  function Unsigned(n: nat): (s: string)
    ensures |s| >= 1 && s[0] != ' '
  {
    if n < 10 then [('0' as int + n % 10) as char]
    else Unsigned(n / 10) + [('0' as int + n % 10) as char]
  }

  /** The decimal form is the number in exactly as many digits as it has. */
  lemma {:induction false} UnsignedDigits(n: nat)
    ensures Unsigned(n) == Timestamps.Digits(n, NumDigits(n))
    ensures |Unsigned(n)| == NumDigits(n) && Timestamps.AllDigits(Unsigned(n))
  {
    if n < 10 {
      assert Timestamps.Digits(n / 10, 0) == [];
    } else {
      UnsignedDigits(n / 10);
    }
  }

  /** x in decimal, with a minus sign when negative. */
  function Decimal(x: int): (s: string)
    ensures |s| >= 1 && s[0] != ' '
  {
    if x < 0 then "-" + Unsigned(-x) else Unsigned(x)
  }

  /** Reads an optionally signed decimal number. */
  function ParseInt(s: string): Option<int>
  {
    if |s| >= 2 && s[0] == '-' && Timestamps.AllDigits(s[1..]) then
      var v: int := Timestamps.DigitsValue(s[1..]);
      Some(-v)
    else if |s| >= 1 && Timestamps.AllDigits(s) then Some(Timestamps.DigitsValue(s))
    else None
  }

  /** A printed number reads back as itself. */
  lemma ParseDecimal(x: int)
    ensures ParseInt(Decimal(x)) == Some(x)
  {
    var n := if x < 0 then -x else x;
    UnsignedDigits(n);
    NumDigitsFits(n);
    Timestamps.DigitsRoundTrip(n, NumDigits(n));
    if x < 0 {
      assert Decimal(x)[1..] == Unsigned(n);
    }
  }

  /** A text right-aligned in a field of width w: blanks in front, never cut. */
  function PadLeft(s: string, w: nat): (r: string)
    ensures |r| == if |s| >= w then |s| else w
  {
    if |s| >= w then s else [' '] + PadLeft(s, w - 1)
  }

  /** The padded text ends with the text itself, after nothing but blanks. */
  lemma {:induction false} PadLeftShape(s: string, w: nat)
    ensures var r := PadLeft(s, w);
      r[|r| - |s|..] == s && forall k :: 0 <= k < |r| - |s| ==> r[k] == ' '
  {
    var r := PadLeft(s, w);
    if |s| < w {
      var t := PadLeft(s, w - 1);
      PadLeftShape(s, w - 1);
      assert r == [' '] + t;
      assert r[1..] == t;
      var d := |t| - |s|;
      assert r[d + 1..] == t[d..];
      forall k | 0 < k < d + 1 ensures r[k] == ' ' {
        assert r[k] == t[k - 1];
      }
    } else {
      assert r == s;
    }
  }

  /** Drops the leading blanks. */
  function TrimLeft(s: string): string
  {
    if s != [] && s[0] == ' ' then TrimLeft(s[1..]) else s
  }

  lemma {:induction false} TrimBlanks(s: string, k: nat)
    requires k <= |s| && (forall i :: 0 <= i < k ==> s[i] == ' ') && (k == |s| || s[k] != ' ')
    ensures TrimLeft(s) == s[k..]
  {
    if k > 0 {
      TrimBlanks(s[1..], k - 1);
    }
  }

  /** A number written in a field w wide. */
  function FieldText(x: int, w: nat): string
  {
    PadLeft(Decimal(x), w)
  }

  /** The line break written while the field width is w: padded like any other item. */
  function Break(w: nat): (r: string)
    ensures |r| == if w <= 1 then 1 else w
  {
    if w <= 1 then "\n" else " " + Break(w - 1)
  }

  predicate Fits(x: int, w: nat)
  {
    |Decimal(x)| <= w
  }

  /** Numbers from -9999999 to 99999999 fill a field of eight without overflowing it. */
  lemma FitsEight(x: int)
    requires -9999999 <= x <= 99999999
    ensures Fits(x, 8) && |FieldText(x, 8)| == 8
  {
    assert Timestamps.Pow10(7) == 10000000;
    assert Timestamps.Pow10(8) == 100000000;
    if x < 0 {
      UnsignedDigits(-x);
      NumDigitsBound(-x, 7);
    } else {
      UnsignedDigits(x);
      NumDigitsBound(x, 8);
    }
  }

  /** A field, blanks dropped, reads back as its number. */
  lemma FieldTextParses(x: int, w: nat)
    ensures ParseInt(TrimLeft(FieldText(x, w))) == Some(x)
  {
    var d := Decimal(x);
    var r := FieldText(x, w);
    PadLeftShape(d, w);
    TrimBlanks(r, |r| - |d|);
    ParseDecimal(x);
  }

  // Line breaks.

  /** The number of line breaks in a text. */
  function NewLines(s: string): nat
  {
    if s == [] then 0 else NewLines(s[..|s| - 1]) + (if s[|s| - 1] == '\n' then 1 else 0)
  }

  predicate OneLine(s: string)
  {
    forall k :: 0 <= k < |s| ==> s[k] != '\n'
  }

  lemma {:induction false} NewLinesAppend(a: string, b: string)
    ensures NewLines(a + b) == NewLines(a) + NewLines(b)
  {
    if b != [] {
      assert (a + b)[..|a + b| - 1] == a + b[..|b| - 1];
      assert (a + b)[|a + b| - 1] == b[|b| - 1];
      NewLinesAppend(a, b[..|b| - 1]);
    } else {
      assert a + b == a;
    }
  }

  lemma {:induction false} OneLineNoBreaks(s: string)
    requires OneLine(s)
    ensures NewLines(s) == 0
  {
    if s != [] {
      OneLineNoBreaks(s[..|s| - 1]);
    }
  }

  /** A padded line break is one line break, at its end. */
  lemma {:induction false} BreakLines(w: nat)
    ensures |Break(w)| >= 1 && Break(w)[|Break(w)| - 1] == '\n'
    ensures OneLine(Break(w)[..|Break(w)| - 1]) && NewLines(Break(w)) == 1
  {
    var b := Break(w);
    if w > 1 {
      BreakLines(w - 1);
      var c := Break(w - 1);
      assert b == " " + c;
      assert b[..|b| - 1] == " " + c[..|c| - 1];
    }
    OneLineNoBreaks(b[..|b| - 1]);
  }

  /** A number in decimal is on one line. */
  lemma DecimalOneLine(x: int)
    ensures OneLine(Decimal(x))
  {
    UnsignedOneLine(if x < 0 then -x else x);
    if x < 0 {
      OneLineJoin("-", Unsigned(-x));
    }
  }

  lemma {:induction false} UnsignedOneLine(n: nat)
    ensures OneLine(Unsigned(n))
  {
    if n >= 10 {
      UnsignedOneLine(n / 10);
      OneLineJoin(Unsigned(n / 10), [('0' as int + n % 10) as char]);
    }
  }

  /** Two texts on one line joined are on one line. */
  lemma OneLineJoin(a: string, b: string)
    requires OneLine(a) && OneLine(b)
    ensures OneLine(a + b)
  {
    forall k | |a| <= k < |a + b| ensures (a + b)[k] != '\n' {
      assert (a + b)[k] == b[k - |a|];
    }
  }

  /** Padding with blanks keeps a text on one line. */
  lemma PadLeftOneLine(s: string, w: nat)
    requires OneLine(s)
    ensures OneLine(PadLeft(s, w))
  {
    var r := PadLeft(s, w);
    PadLeftShape(s, w);
    forall k | |r| - |s| <= k < |r| ensures r[k] != '\n' {
      assert r[k] == r[|r| - |s|..][k - (|r| - |s|)];
    }
  }

  /** A number in its field is on one line. */
  lemma FieldTextOneLine(x: int, w: nat)
    ensures OneLine(FieldText(x, w))
  {
    DecimalOneLine(x);
    PadLeftOneLine(Decimal(x), w);
  }

  /** A line of a label, a number and a padded break, ahead of c, adds one line break. */
  lemma LabelledLines(p: string, tag: string, x: int, w: nat, c: string)
    requires OneLine(tag)
    ensures NewLines(p + tag + FieldText(x, w) + Break(w) + c) == NewLines(p) + 1 + NewLines(c)
  {
    NewLinesAppend(p + tag + FieldText(x, w) + Break(w), c);
    NewLinesAppend(p + tag + FieldText(x, w), Break(w));
    NewLinesAppend(p + tag, FieldText(x, w));
    NewLinesAppend(p, tag);
    OneLineNoBreaks(tag);
    FieldTextOneLine(x, w);
    OneLineNoBreaks(FieldText(x, w));
    BreakLines(w);
  }

  // The header text.

  /** The slots as written, each in a field eight wide. */
  function Render(vals: seq<int>): (r: seq<string>)
    ensures |r| == |vals|
  {
    if vals == [] then [] else Render(vals[..|vals| - 1]) + [FieldText(vals[|vals| - 1], 8)]
  }

  /** Field k of the rendered slots is slot k eight wide. */
  lemma {:induction false} RenderAt(vals: seq<int>, k: nat)
    requires k < |vals|
    ensures Render(vals)[k] == FieldText(vals[k], 8)
  {
    if k < |vals| - 1 {
      RenderAt(vals[..|vals| - 1], k);
    }
  }

  /** The header text after m fields: a break after every tenth. */
  function HeaderUpTo(fields: seq<string>, m: nat): string
    requires m <= |fields|
  {
    if m == 0 then ""
    else HeaderUpTo(fields, m - 1) + fields[m - 1] + (if m % 10 == 0 then Break(8) else "")
  }

  predicate AllFit(vals: seq<int>)
  {
    forall k :: 0 <= k < |vals| ==> Fits(vals[k], 8)
  }

  predicate EightWide(fields: seq<string>)
  {
    forall k :: 0 <= k < |fields| ==> |fields[k]| == 8
  }

  /** Slots that fit are written exactly eight wide. */
  lemma RenderEightWide(vals: seq<int>)
    requires AllFit(vals)
    ensures EightWide(Render(vals))
  {
    forall k | 0 <= k < |vals| ensures |Render(vals)[k]| == 8 {
      RenderAt(vals, k);
    }
  }

  /** Where the field of slot k (counted from 0) starts: each line of ten takes eleven fields of eight. */
  function Offset(k: nat): nat
  {
    88 * (k / 10) + 8 * (k % 10)
  }

  lemma TenthStep(m: nat)
    requires m > 0
    ensures m / 10 == (m - 1) / 10 + (if m % 10 == 0 then 1 else 0)
    ensures 8 * m + 8 * (m / 10) == 8 * (m - 1) + 8 * ((m - 1) / 10) + 8 + (if m % 10 == 0 then 8 else 0)
  {
  }

  /** The header's line counter reaches ten exactly at the tenth slots. */
  lemma TenCounter(n: nat, lines: nat, line: nat)
    requires line < 10 && n == 10 * lines + line + 1
    ensures (line + 1 == 10) == (n % 10 == 0)
  {
  }

  /** The block's line counter reaches eight exactly at every eighth value, and restarts at 0. */
  lemma EightCounter(i: nat)
    ensures (i % 8 + 1 == 8) == ((i + 1) % 8 == 0)
    ensures i % 8 + 1 < 8 ==> i % 8 + 1 == (i + 1) % 8
  {
  }

  lemma {:induction false} HeaderLength(fields: seq<string>, m: nat)
    requires m <= |fields| && EightWide(fields)
    ensures |HeaderUpTo(fields, m)| == 8 * m + 8 * (m / 10)
  {
    if m > 0 {
      HeaderLength(fields, m - 1);
      assert |HeaderUpTo(fields, m)| == |HeaderUpTo(fields, m - 1)| + 8 + (if m % 10 == 0 then 8 else 0);
      TenthStep(m);
    }
  }

  lemma SliceOfPrefix(a: string, b: string, i: nat, j: nat)
    requires i <= j <= |a|
    ensures (a + b)[i..j] == a[i..j]
  {
  }

  lemma SliceOfMiddle(a: string, f: string, b: string)
    ensures (a + f + b)[|a|..|a| + |f|] == f
  {
  }

  /** When every field is eight wide, field k lies at Offset(k). */
  lemma {:induction false} HeaderField(fields: seq<string>, m: nat, k: nat)
    requires k < m <= |fields| && EightWide(fields)
    ensures Offset(k) + 8 <= |HeaderUpTo(fields, m)|
    ensures HeaderUpTo(fields, m)[Offset(k)..Offset(k) + 8] == fields[k]
  {
    HeaderLength(fields, m - 1);
    var a, f := HeaderUpTo(fields, m - 1), fields[m - 1];
    var b := if m % 10 == 0 then Break(8) else "";
    assert HeaderUpTo(fields, m) == a + f + b;
    if k < m - 1 {
      HeaderField(fields, m - 1, k);
      SliceOfPrefix(a + f, b, Offset(k), Offset(k) + 8);
      SliceOfPrefix(a, f, Offset(k), Offset(k) + 8);
    } else {
      assert Offset(k) == |a|;
      SliceOfMiddle(a, f, b);
    }
  }

  /** When every field is eight wide, line l ends at 88 * l + 87 with its break. */
  lemma {:induction false} HeaderBreak(fields: seq<string>, m: nat, l: nat)
    requires m <= |fields| && EightWide(fields) && l < m / 10
    ensures 88 * l + 87 < |HeaderUpTo(fields, m)| && HeaderUpTo(fields, m)[88 * l + 87] == '\n'
  {
    if l < (m - 1) / 10 {
      HeaderBreak(fields, m - 1, l);
      HeaderPrefix(fields, m, 88 * l + 87);
    } else {
      HeaderLastBreak(fields, m, l);
    }
  }

  /** Writing slot m keeps what was written before it. */
  lemma HeaderPrefix(fields: seq<string>, m: nat, i: nat)
    requires 0 < m <= |fields| && i < |HeaderUpTo(fields, m - 1)|
    ensures i < |HeaderUpTo(fields, m)| && HeaderUpTo(fields, m)[i] == HeaderUpTo(fields, m - 1)[i]
  {
    var a := HeaderUpTo(fields, m - 1);
    var tail := if m % 10 == 0 then Break(8) else "";
    assert HeaderUpTo(fields, m) == a + fields[m - 1] + tail;
    assert (a + fields[m - 1] + tail)[i] == a[i];
  }

  /** The break that completes line l is the one written after slot m. */
  lemma HeaderLastBreak(fields: seq<string>, m: nat, l: nat)
    requires 0 < m <= |fields| && EightWide(fields) && (m - 1) / 10 <= l < m / 10
    ensures 88 * l + 87 < |HeaderUpTo(fields, m)| && HeaderUpTo(fields, m)[88 * l + 87] == '\n'
  {
    HeaderLength(fields, m - 1);
    LastBreakAt(m, l);
    var a := HeaderUpTo(fields, m - 1);
    assert HeaderUpTo(fields, m) == a + fields[m - 1] + Break(8);
    TenthBreak(a, fields[m - 1], 88 * l + 87);
  }

  /** The break ending line l is the one written after slot m when line l is complete at m but not at m - 1. */
  lemma LastBreakAt(m: nat, l: nat)
    requires 0 < m && (m - 1) / 10 <= l < m / 10
    ensures m % 10 == 0 && 88 * l + 87 == 8 * (m - 1) + 8 * ((m - 1) / 10) + 15
  {
    TenthStep(m);
  }

  /** A tenth field of eight is followed by its break, ending at offset 15 past the field's start. */
  lemma TenthBreak(a: string, f: string, i: nat)
    requires |f| == 8 && i == |a| + 15
    ensures i < |a + f + Break(8)| && (a + f + Break(8))[i] == '\n'
  {
    BreakLines(8);
    assert (a + f + Break(8))[i] == Break(8)[7];
  }

  /** Every slot that fits can be read back from its place in the header text. */
  lemma HeaderReadsBack(vals: seq<int>, k: nat)
    requires k < |vals| && AllFit(vals)
    ensures Offset(k) + 8 <= |HeaderUpTo(Render(vals), |vals|)|
    ensures ParseInt(TrimLeft(HeaderUpTo(Render(vals), |vals|)[Offset(k)..Offset(k) + 8])) == Some(vals[k])
  {
    RenderEightWide(vals);
    HeaderField(Render(vals), |vals|, k);
    RenderAt(vals, k);
    FieldTextParses(vals[k], 8);
  }

  /** The header takes one line per ten fields: 51 lines for 510 slots. */
  lemma {:induction false} HeaderLines(fields: seq<string>, m: nat)
    requires m <= |fields| && forall k :: 0 <= k < |fields| ==> OneLine(fields[k])
    ensures NewLines(HeaderUpTo(fields, m)) == m / 10
  {
    if m > 0 {
      HeaderLines(fields, m - 1);
      var a := HeaderUpTo(fields, m - 1);
      CellLine(a, fields[m - 1], m % 10 == 0, 8);
      assert HeaderUpTo(fields, m) == a + fields[m - 1] + (if m % 10 == 0 then Break(8) else "");
      TenthStep(m);
    }
  }

  /** Every slot's field is on one line. */
  lemma RenderOneLine(vals: seq<int>)
    ensures forall k :: 0 <= k < |vals| ==> OneLine(Render(vals)[k])
  {
    forall k | 0 <= k < |vals| ensures OneLine(Render(vals)[k]) {
      RenderAt(vals, k);
      FieldTextOneLine(vals[k], 8);
    }
  }

  // The data blocks.

  /** A field block after m values: a break after every eighth, in the values' width of ten. */
  function BlockUpTo(cells: seq<string>, m: nat): string
    requires m <= |cells|
  {
    if m == 0 then ""
    else BlockUpTo(cells, m - 1) + cells[m - 1] + (if m % 8 == 0 then Break(10) else "")
  }

  /** A field block: its values, and a last break unless one was just written. */
  function Block(cells: seq<string>): string
  {
    BlockUpTo(cells, |cells|) + (if |cells| % 8 != 0 then Break(10) else "")
  }

  lemma {:induction false} BlockUpToLines(cells: seq<string>, m: nat)
    requires m <= |cells| && forall i :: 0 <= i < |cells| ==> OneLine(cells[i])
    ensures NewLines(BlockUpTo(cells, m)) == m / 8
  {
    if m > 0 {
      BlockUpToLines(cells, m - 1);
      var a := BlockUpTo(cells, m - 1);
      CellLine(a, cells[m - 1], m % 8 == 0, 10);
      assert BlockUpTo(cells, m) == a + cells[m - 1] + (if m % 8 == 0 then Break(10) else "");
      EighthStep(m);
    }
  }

  /** A value on one line, with a padded break after it or not, adds a line only with the break. */
  lemma CellLine(p: string, c: string, brk: bool, w: nat)
    requires OneLine(c)
    ensures NewLines(p + c + (if brk then Break(w) else "")) == NewLines(p) + (if brk then 1 else 0)
  {
    var b := if brk then Break(w) else "";
    NewLinesAppend(p, c);
    NewLinesAppend(p + c, b);
    OneLineNoBreaks(c);
    BreakLines(w);
  }

  lemma EighthStep(m: nat)
    requires m > 0
    ensures m / 8 == (m - 1) / 8 + (if m % 8 == 0 then 1 else 0)
  {
  }

  /** A block of n one-line values takes ceil(n / 8) lines, and ends with a line break unless empty. */
  lemma BlockLines(cells: seq<string>)
    requires forall i :: 0 <= i < |cells| ==> OneLine(cells[i])
    ensures NewLines(Block(cells)) == (|cells| + 7) / 8
    ensures |cells| > 0 ==> |Block(cells)| > 0 && Block(cells)[|Block(cells)| - 1] == '\n'
  {
    var b := if |cells| % 8 != 0 then Break(10) else "";
    BlockUpToLines(cells, |cells|);
    NewLinesAppend(BlockUpTo(cells, |cells|), b);
    BreakLines(10);
    if |cells| > 0 && |cells| % 8 == 0 {
      var m := |cells|;
      assert BlockUpTo(cells, m) == BlockUpTo(cells, m - 1) + cells[m - 1] + Break(10);
    }
  }

  type CellText = (int, int, int) -> string

  /** The printed values of field n along azimuth row j. */
  function Cells(cell: CellText, n: int, j: int, iDim: nat): (r: seq<string>)
    ensures |r| == iDim
  {
    if iDim == 0 then [] else Cells(cell, n, j, iDim - 1) + [cell(n, iDim - 1, j)]
  }

  /** Value i of the row is the cell at column i. */
  lemma {:induction false} CellsAt(cell: CellText, n: int, j: int, iDim: nat)
    ensures forall i :: 0 <= i < iDim ==> Cells(cell, n, j, iDim)[i] == cell(n, i, j)
  {
    if iDim > 0 {
      CellsAt(cell, n, j, iDim - 1);
    }
  }

  /** The first m field blocks of azimuth row j, each after its name on a line of its own. */
  function FieldsText(g: Grid, cell: CellText, j: int, m: nat): string
    requires m <= |g.fieldNames|
  {
    if m == 0 then ""
    else FieldsText(g, cell, j, m - 1) + g.fieldNames[m - 1] + "\n" + Block(Cells(cell, m - 1, j, g.iDim))
  }

  /** The first m azimuth rows of a level, each after its 1-based number. */
  function RowsText(g: Grid, cell: CellText, m: nat): string
  {
    if m == 0 then ""
    else RowsText(g, cell, m - 1) + "azimuth" + FieldText(m, 3) + Break(3) + FieldsText(g, cell, m - 1, |g.fieldNames|)
  }

  /** The first m levels, each after its 1-based number; every level repeats the same rows. */
  function LevelsText(rows: string, m: nat): string
  {
    if m == 0 then ""
    else LevelsText(rows, m - 1) + "level" + FieldText(m, 2) + Break(2) + rows
  }

  /** One level's rows; every level prints the same rows. */
  function LevelText(g: Grid, cell: CellText): string
  {
    RowsText(g, cell, g.jDim)
  }

  /** Every level, each after its number line. */
  function DataText(g: Grid, cell: CellText): string
  {
    LevelsText(LevelText(g, cell), g.kDim)
  }

  /** The header slots after the leading count, ten to a line. */
  function HeaderText(g: Grid): string
    requires ValidGrid(g)
  {
    HeaderUpTo(Render(Header(g)[1..]), |Header(g)[1..]|)
  }

  /** The whole file: the header, then the data. */
  function AsiText(g: Grid, cell: CellText): string
    requires ValidGrid(g)
  {
    HeaderText(g) + DataText(g, cell)
  }

  /** The line count of one field block. */
  function BlockHeight(g: Grid): nat
  {
    (g.iDim + 7) / 8
  }

  /** m repetitions of h lines. */
  function Times(m: nat, h: nat): nat
  {
    if m == 0 then 0 else Times(m - 1, h) + h
  }

  lemma {:induction false} TimesIsProduct(m: nat, h: nat)
    ensures Times(m, h) == m * h
  {
    if m > 0 {
      TimesIsProduct(m - 1, h);
      assert (m - 1) * h + h == m * h;
    }
  }

  /** The line count of one azimuth row: a name line and a block per field. */
  function RowHeight(g: Grid): nat
  {
    Times(|g.fieldNames|, 1 + BlockHeight(g))
  }

  /** The line count of one level: a number line and a row per azimuth. */
  function LevelHeight(g: Grid): nat
  {
    Times(g.jDim, 1 + RowHeight(g))
  }

  predicate PrintableNames(g: Grid)
  {
    forall n :: 0 <= n < |g.fieldNames| ==> OneLine(g.fieldNames[n])
  }

  ghost predicate PrintableCells(cell: CellText)
  {
    forall n, i, j :: OneLine(cell(n, i, j))
  }

  /** The level and azimuth labels are on one line. */
  lemma TagsOneLine()
    ensures OneLine("azimuth") && OneLine("level")
  {
  }

  /** An azimuth number line adds one line break. */
  lemma AzimuthLine(p: string, x: int, c: string)
    ensures NewLines(p + "azimuth" + FieldText(x, 3) + Break(3) + c) == NewLines(p) + 1 + NewLines(c)
  {
    TagsOneLine();
    LabelledLines(p, "azimuth", x, 3, c);
  }

  /** A level number line adds one line break. */
  lemma LevelLine(p: string, x: int, c: string)
    ensures NewLines(p + "level" + FieldText(x, 2) + Break(2) + c) == NewLines(p) + 1 + NewLines(c)
  {
    TagsOneLine();
    LabelledLines(p, "level", x, 2, c);
  }

  /** A field block after its name line adds the name line and the block's lines. */
  lemma FieldsStep(g: Grid, cell: CellText, j: int, m: nat)
    requires 0 < m <= |g.fieldNames| && PrintableNames(g) && PrintableCells(cell)
    ensures NewLines(FieldsText(g, cell, j, m)) == NewLines(FieldsText(g, cell, j, m - 1)) + 1 + BlockHeight(g)
  {
    var p, cells := FieldsText(g, cell, j, m - 1), Cells(cell, m - 1, j, g.iDim);
    NameLine(p, g.fieldNames[m - 1], Block(cells));
    CellsOneLine(cell, m - 1, j, g.iDim);
    BlockLines(cells);
    assert FieldsText(g, cell, j, m) == p + g.fieldNames[m - 1] + "\n" + Block(cells);
  }

  /** The printed values of a row are each on one line. */
  lemma CellsOneLine(cell: CellText, n: int, j: int, iDim: nat)
    requires PrintableCells(cell)
    ensures forall i :: 0 <= i < iDim ==> OneLine(Cells(cell, n, j, iDim)[i])
  {
    CellsAt(cell, n, j, iDim);
  }

  /** A name on a line of its own adds one line break. */
  lemma NameLine(p: string, name: string, c: string)
    requires OneLine(name)
    ensures NewLines(p + name + "\n" + c) == NewLines(p) + 1 + NewLines(c)
  {
    NewLinesAppend(p + name + "\n", c);
    NewLinesAppend(p + name, "\n");
    NewLinesAppend(p, name);
    OneLineNoBreaks(name);
    assert NewLines("\n") == 1 by {
      assert "\n"[..0] == [];
    }
  }

  lemma {:induction false} FieldsLines(g: Grid, cell: CellText, j: int, m: nat)
    requires m <= |g.fieldNames| && PrintableNames(g) && PrintableCells(cell)
    ensures NewLines(FieldsText(g, cell, j, m)) == Times(m, 1 + BlockHeight(g))
  {
    if m > 0 {
      FieldsLines(g, cell, j, m - 1);
      FieldsStep(g, cell, j, m);
    }
  }

  /** The field blocks of an azimuth row take RowHeight(g) lines. */
  lemma RowFieldsLines(g: Grid, cell: CellText, j: int)
    requires PrintableNames(g) && PrintableCells(cell)
    ensures NewLines(FieldsText(g, cell, j, |g.fieldNames|)) == RowHeight(g)
  {
    FieldsLines(g, cell, j, |g.fieldNames|);
    assert RowHeight(g) == Times(|g.fieldNames|, 1 + BlockHeight(g));
  }

  /** An azimuth row after its number line adds that line and the row's field lines. */
  lemma RowsStep(g: Grid, cell: CellText, m: nat)
    requires m > 0 && PrintableNames(g) && PrintableCells(cell)
    ensures NewLines(RowsText(g, cell, m)) == NewLines(RowsText(g, cell, m - 1)) + 1 + RowHeight(g)
  {
    RowFieldsLines(g, cell, m - 1);
    var p, c := RowsText(g, cell, m - 1), FieldsText(g, cell, m - 1, |g.fieldNames|);
    assert RowsText(g, cell, m) == p + "azimuth" + FieldText(m, 3) + Break(3) + c;
    AzimuthLine(p, m, c);
  }

  lemma {:induction false} RowsLines(g: Grid, cell: CellText, m: nat)
    requires PrintableNames(g) && PrintableCells(cell)
    ensures NewLines(RowsText(g, cell, m)) == Times(m, 1 + RowHeight(g))
  {
    if m > 0 {
      RowsLines(g, cell, m - 1);
      RowsStep(g, cell, m);
    }
  }

  /** A level after its number line adds that line and the level's row lines. */
  lemma LevelsStep(rows: string, m: nat)
    requires m > 0
    ensures NewLines(LevelsText(rows, m)) == NewLines(LevelsText(rows, m - 1)) + 1 + NewLines(rows)
  {
    var p := LevelsText(rows, m - 1);
    assert LevelsText(rows, m) == p + "level" + FieldText(m, 2) + Break(2) + rows;
    LevelLine(p, m, rows);
  }

  lemma {:induction false} LevelsLines(rows: string, m: nat)
    ensures NewLines(LevelsText(rows, m)) == Times(m, 1 + NewLines(rows))
  {
    if m > 0 {
      LevelsLines(rows, m - 1);
      LevelsStep(rows, m);
    }
  }

  /** The header text is 51 lines. */
  lemma HeaderTextLines(g: Grid)
    requires ValidGrid(g)
    ensures NewLines(HeaderText(g)) == 51
  {
    var vals := Header(g)[1..];
    RenderOneLine(vals);
    HeaderLines(Render(vals), |vals|);
  }

  /** The levels take a number line and h lines each when one level's rows take h lines. */
  lemma LevelsCount(rows: string, k: nat, h: nat)
    requires NewLines(rows) == h
    ensures NewLines(LevelsText(rows, k)) == Times(k, 1 + h)
  {
    LevelsLines(rows, k);
  }

  /** The data text takes a number line and LevelHeight(g) lines per level. */
  lemma DataLines(g: Grid, cell: CellText)
    requires PrintableNames(g) && PrintableCells(cell)
    ensures NewLines(DataText(g, cell)) == Times(g.kDim, 1 + LevelHeight(g))
  {
    LevelRowsLines(g, cell);
    LevelsCount(LevelText(g, cell), g.kDim, LevelHeight(g));
    assert DataText(g, cell) == LevelsText(LevelText(g, cell), g.kDim);
  }

  /** One level's rows take LevelHeight(g) lines. */
  lemma LevelRowsLines(g: Grid, cell: CellText)
    requires PrintableNames(g) && PrintableCells(cell)
    ensures NewLines(LevelText(g, cell)) == LevelHeight(g)
  {
    RowsLines(g, cell, g.jDim);
    assert LevelText(g, cell) == RowsText(g, cell, g.jDim);
  }

  lemma FileLinesCount(g: Grid, cell: CellText)
    requires ValidGrid(g) && PrintableNames(g) && PrintableCells(cell)
    ensures NewLines(AsiText(g, cell)) ==
      51 + Times(g.kDim, 1 + LevelHeight(g))
  {
    HeaderTextLines(g);
    DataLines(g, cell);
    NewLinesAppend(HeaderText(g), DataText(g, cell));
  }

  lemma HeightsClosedForm(g: Grid)
    ensures Times(g.kDim, 1 + LevelHeight(g)) ==
      g.kDim * (1 + g.jDim * (1 + |g.fieldNames| * (1 + (g.iDim + 7) / 8)))
  {
    TimesIsProduct(|g.fieldNames|, 1 + BlockHeight(g));
    TimesIsProduct(g.jDim, 1 + RowHeight(g));
    TimesIsProduct(g.kDim, 1 + LevelHeight(g));
  }

  /** The whole file: 51 header lines, then per level a number line and its rows. */
  lemma FileLines(g: Grid, cell: CellText)
    requires ValidGrid(g) && PrintableNames(g) && PrintableCells(cell)
    ensures NewLines(AsiText(g, cell)) ==
      51 + g.kDim * (1 + g.jDim * (1 + |g.fieldNames| * (1 + (g.iDim + 7) / 8)))
  {
    FileLinesCount(g, cell);
    HeightsClosedForm(g);
  }

  // writeAsi.

  /** Fills the header slot by slot. */
  method BuildHeader(g: Grid) returns (id: array<int>)
    requires ValidGrid(g)
    ensures fresh(id) && id.Length == Slots + 1
    ensures forall s :: 1 <= s <= Slots ==> id[s] == Header(g)[s]
  {
    id := new int[Slots + 1];
    var n := 1;
    while n <= Slots
      invariant 1 <= n <= Slots + 1 && forall s :: 1 <= s < n ==> id[s] == Missing
    {
      id[n] := Missing;
      n := n + 1;
    }
    id[175] := |g.fieldNames|;
    var f := 0;
    while f < id[175]
      invariant id[175] == |g.fieldNames| && 0 <= f <= |g.fieldNames|
      invariant forall s :: 1 <= s <= Slots ==> id[s] == FieldsUpTo(g.fieldNames, f)[s]
    {
      WriteField(id, f, g.fieldNames[f]);
      f := f + 1;
    }
    ghost var fields := id[..];
    WriteIdentity(id);
    WriteAxes(id, g);
    WriteCentre(id, g);
    assert forall s :: 1 <= s <= Slots ==> id[s] == if FixedSlot(s) then FixedValue(g, s) else fields[s];
  }

  /** Writes the five slots of field n. */
  method WriteField(id: array<int>, n: nat, name: string)
    requires id.Length == Slots + 1 && n < MaxFields && Ascii(name)
    modifies id
    ensures forall s :: 0 <= s <= Slots ==> id[s] == WithField(old(id[..]), n, name)[s]
  {
    id[176 + 5 * n] := CharCode(name, 0) * 256 + CharCode(name, 1);
    id[177 + 5 * n] := Blanks;
    id[178 + 5 * n] := Blanks;
    id[179 + 5 * n] := Blanks;
    id[180 + 5 * n] := 1;
  }

  /** Writes the file kind, the position (zero) and the scale factors. */
  method WriteIdentity(id: array<int>)
    requires id.Length == Slots + 1
    modifies id
    ensures forall s :: 0 <= s <= Slots ==> id[s] == if IdentitySlot(s) then IdentityValue(s) else old(id[s])
  {
    id[16] := 17217;
    id[17] := 21076;
    var b := 33;
    while b <= 38
      invariant 33 <= b <= 39
      invariant forall s :: 0 <= s <= Slots ==> id[s] == if 33 <= s < b then 0 else if s == 16 then 17217 else if s == 17 then 21076 else old(id[s])
    {
      id[b] := 0;
      b := b + 1;
    }
    id[40] := 90;
    id[68] := 100;
    id[69] := 64;
  }

  /** Writes the five slots of one axis from slot base on. */
  method WriteAxis(id: array<int>, base: nat, lo: int, hi: int, dim: nat, sp: real, axis: int)
    requires base + 5 <= id.Length
    modifies id
    ensures forall s :: 0 <= s < id.Length && !(base <= s < base + 5) ==> id[s] == old(id[s])
    ensures id[base] == lo && id[base + 1] == hi && id[base + 2] == dim
    ensures id[base + 3] == SpacingSlot(sp) && id[base + 4] == axis
  {
    id[base] := lo;
    id[base + 1] := hi;
    id[base + 2] := dim;
    id[base + 3] := SpacingSlot(sp);
    id[base + 4] := axis;
  }

  /** Writes the x, y and z slots. */
  method WriteAxes(id: array<int>, g: Grid)
    requires id.Length == Slots + 1
    modifies id
    ensures forall s :: 0 <= s <= Slots ==> id[s] == if AxisSlot(s) then AxisValues(g)[s - 160] else old(id[s])
  {
    var e := g.extents;
    WriteAxis(id, 160, e.xMin, e.xMax, g.iDim, g.iGridsp, 1);
    WriteAxis(id, 165, e.yMin, e.yMax, g.jDim, g.jGridsp, 2);
    WriteAxis(id, 170, e.zMin, e.zMax, g.kDim, g.kGridsp, 3);
  }

  /** Writes the radar count and the index of the centre. */
  method WriteCentre(id: array<int>, g: Grid)
    requires id.Length == Slots + 1
    modifies id
    ensures forall s :: 0 <= s <= Slots ==> id[s] == if CentreSlot(s) then CentreValue(g, s) else old(id[s])
  {
    id[303] := 1;
    id[309] := g.extents.xCentre;
    id[310] := g.extents.yCentre;
    id[311] := 0;
  }

  /** Writes slots 1 to 510, ten to a line. */
  method WriteHeader(id: array<int>) returns (out: string)
    requires id.Length == Slots + 1
    ensures out == HeaderUpTo(Render(id[1..]), |id[1..]|)
  {
    ghost var fields := Render(id[1..]);
    ghost var lines := 0;
    out := "";
    var line := 0;
    var n := 1;
    while n <= Slots
      invariant 1 <= n <= Slots + 1 && 0 <= line < 10 && n - 1 == 10 * lines + line
      invariant out == HeaderUpTo(fields, n - 1)
    {
      RenderAt(id[1..], n - 1);
      assert id[1..][n - 1] == id[n];
      out, line, lines := WriteSlot(out, line, id[n], fields, n, lines);
      n := n + 1;
    }
  }

  /** Writes slot n, and the line break if it is the tenth on its line. */
  method WriteSlot(out: string, line: int, x: int, ghost fields: seq<string>, ghost n: nat, ghost lines: nat)
    returns (out': string, line': int, ghost lines': nat)
    requires 1 <= n <= |fields| && fields[n - 1] == FieldText(x, 8)
    requires 0 <= line < 10 && n - 1 == 10 * lines + line
    requires out == HeaderUpTo(fields, n - 1)
    ensures 0 <= line' < 10 && n == 10 * lines' + line'
    ensures out' == HeaderUpTo(fields, n)
  {
    assert HeaderUpTo(fields, n) == out + fields[n - 1] + (if n % 10 == 0 then Break(8) else "");
    TenCounter(n, lines, line);
    line' := line + 1;
    lines' := lines;
    out' := out + FieldText(x, 8);
    if line' == 10 {
      out' := out' + Break(8);
      line' := 0;
      lines' := lines + 1;
    }
  }

  /** Writes the iDim values of field n along row j, eight to a line. */
  method WriteBlock(cell: CellText, n: int, j: int, iDim: nat) returns (out: string)
    ensures out == Block(Cells(cell, n, j, iDim))
  {
    ghost var cells := Cells(cell, n, j, iDim);
    CellsAt(cell, n, j, iDim);
    out := "";
    var line := 0;
    var i := 0;
    while i < iDim
      invariant 0 <= i <= iDim && line == i % 8
      invariant out == BlockUpTo(cells, i)
    {
      assert BlockUpTo(cells, i + 1) == out + cells[i] + (if (i + 1) % 8 == 0 then Break(10) else "");
      EightCounter(i);
      out := out + cell(n, i, j);
      line := line + 1;
      if line == 8 {
        out := out + Break(10);
        line := 0;
      }
      i := i + 1;
    }
    assert Block(cells) == out + (if iDim % 8 != 0 then Break(10) else "");
    if line != 0 {
      out := out + Break(10);
    }
  }

  /** Writes the field blocks of azimuth row j. */
  method WriteFields(g: Grid, cell: CellText, j: int) returns (out: string)
    ensures out == FieldsText(g, cell, j, |g.fieldNames|)
  {
    out := "";
    var n := 0;
    while n < |g.fieldNames|
      invariant 0 <= n <= |g.fieldNames| && out == FieldsText(g, cell, j, n)
    {
      var block := WriteBlock(cell, n, j, g.iDim);
      out := out + g.fieldNames[n] + "\n" + block;
      n := n + 1;
    }
  }

  /** Writes the rows of one level. */
  method WriteRows(g: Grid, cell: CellText) returns (out: string)
    ensures out == RowsText(g, cell, g.jDim)
  {
    out := "";
    var j := 0;
    while j < g.jDim
      invariant 0 <= j <= g.jDim && out == RowsText(g, cell, j)
    {
      var fields := WriteFields(g, cell, j);
      out := out + "azimuth" + FieldText(j + 1, 3) + Break(3) + fields;
      j := j + 1;
    }
  }

  /** Writes the levels. */
  method WriteLevels(g: Grid, cell: CellText) returns (out: string)
    ensures out == DataText(g, cell)
  {
    out := "";
    var k := 0;
    while k < g.kDim
      invariant 0 <= k <= g.kDim && out == LevelsText(LevelText(g, cell), k)
    {
      var rows := WriteRows(g, cell);
      out := out + "level" + FieldText(k + 1, 2) + Break(2) + rows;
      k := k + 1;
    }
  }

  /**
   * writeAsi: the header built and written, then every level. The text
   * that would go to the file is returned.
   */
  method WriteAsi(g: Grid, cell: CellText) returns (out: string)
    requires ValidGrid(g)
    ensures out == AsiText(g, cell)
  {
    var id := BuildHeader(g);
    assert id[1..] == Header(g)[1..];
    var header := WriteHeader(id);
    var levels := WriteLevels(g, cell);
    out := header + levels;
  }
}
