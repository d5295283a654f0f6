/** Sequential record ids of the form `<prefix><serial>`, where the serial is
    printed with `:04d` (zero-padded to at least four digits). Patients use the
    prefix "PAT<year>", appointments "APT<year><month:02d>".

    The source picks the greatest existing id with the prefix in string order
    (`order_by('-…_id').first()`), reads its last four characters as an
    integer and adds one. `GenerateIdAsWritten` models that; `GenerateId` is
    the corrected rule (one more than the greatest serial, read in full), which
    always yields an unused id. The two agree as long as every serial is at
    most 9999. */
module SerialIds {
  import opened Common

  predicate IsDigit(c: char) {
    '0' <= c <= '9'
  }

  predicate AllDigits(s: string) {
    forall i :: 0 <= i < |s| ==> IsDigit(s[i])
  }

  function DigitChar(d: nat): (c: char)
    requires d < 10
    ensures IsDigit(c)
  {
    ('0' as int + d) as char
  }

  function DigitValue(c: char): (d: nat)
    requires IsDigit(c)
    ensures d < 10 && DigitChar(d) == c
  {
    c as int - '0' as int
  }

  /** `str(n)` for a non-negative integer. */
  function Decimal(n: nat): (s: string)
    ensures 1 <= |s| && AllDigits(s)
    ensures n < 10 <==> |s| == 1
    decreases n
  {
    if n < 10 then [DigitChar(n)] else Decimal(n / 10) + [DigitChar(n % 10)]
  }

  function Zeros(k: nat): (s: string)
    ensures |s| == k && AllDigits(s)
  {
    seq(k, _ => '0')
  }

  /** `f"{n:0{width}d}"`: at least `width` digits, padded on the left with 0. */
  function ZeroPad(n: nat, width: nat): (s: string)
    ensures |s| >= width && AllDigits(s)
    ensures |s| == if |Decimal(n)| >= width then |Decimal(n)| else width
  {
    var d := Decimal(n);
    if |d| >= width then d else Zeros(width - |d|) + d
  }

  /** `int(s)` for a string of decimal digits. */
  function DigitsValue(s: string): nat
    requires AllDigits(s)
  {
    if s == [] then 0 else DigitsValue(s[..|s| - 1]) * 10 + DigitValue(s[|s| - 1])
  }

  lemma {:induction false} DecimalValue(n: nat)
    ensures DigitsValue(Decimal(n)) == n
    decreases n
  {
    if n >= 10 {
      var s := Decimal(n);
      assert s[..|s| - 1] == Decimal(n / 10);
      DecimalValue(n / 10);
    }
  }

  lemma {:induction false} LeadingZerosValue(k: nat, s: string)
    requires AllDigits(s)
    ensures DigitsValue(Zeros(k) + s) == DigitsValue(s)
    decreases |s|
  {
    if s == [] {
      ZerosValue(k);
      assert Zeros(k) + s == Zeros(k);
    } else {
      var t := Zeros(k) + s;
      assert t[..|t| - 1] == Zeros(k) + s[..|s| - 1];
      LeadingZerosValue(k, s[..|s| - 1]);
    }
  }

  lemma {:induction false} ZerosValue(k: nat)
    ensures DigitsValue(Zeros(k)) == 0
  {
    if k > 0 {
      assert Zeros(k)[..k - 1] == Zeros(k - 1);
      ZerosValue(k - 1);
    }
  }

  /** Reading back a zero-padded serial gives the serial. */
  lemma ZeroPadValue(n: nat, width: nat)
    ensures DigitsValue(ZeroPad(n, width)) == n
  {
    DecimalValue(n);
    PaddedValue(Decimal(n), width);
  }

  /** Left padding with zeros does not change the value. */
  lemma PaddedValue(d: string, width: nat)
    requires AllDigits(d)
    ensures DigitsValue(if |d| >= width then d else Zeros(width - |d|) + d) == DigitsValue(d)
  {
    if |d| < width {
      LeadingZerosValue(width - |d|, d);
    }
  }

  // ---------------------------------------------------------------------
  // Python's string order

  /** `a < b` on Python strings: lexicographic by code point. */
  predicate LexLess(a: string, b: string)
    decreases |a|
  {
    if a == [] then b != []
    else b != [] && (a[0] < b[0] || (a[0] == b[0] && LexLess(a[1..], b[1..])))
  }

  lemma {:induction false} LexLessIrreflexive(a: string)
    ensures !LexLess(a, a)
    decreases |a|
  {
    if a != [] {
      LexLessIrreflexive(a[1..]);
    }
  }

  lemma {:induction false} LexLessTotal(a: string, b: string)
    requires a != b
    ensures LexLess(a, b) || LexLess(b, a)
    decreases |a|
  {
    if a != [] && b != [] && a[0] == b[0] {
      assert a == [a[0]] + a[1..] && b == [b[0]] + b[1..];
      LexLessTotal(a[1..], b[1..]);
    }
  }

  lemma {:induction false} LexLessTransitive(a: string, b: string, c: string)
    requires LexLess(a, b) && LexLess(b, c)
    ensures LexLess(a, c)
    decreases |a|
  {
    if a != [] && a[0] == b[0] && b[0] == c[0] {
      LexLessTransitive(a[1..], b[1..], c[1..]);
    }
  }

  /** A common prefix does not affect the order. */
  lemma {:induction false} LexLessCommonPrefix(p: string, x: string, y: string)
    ensures LexLess(p + x, p + y) == LexLess(x, y)
    decreases |p|
  {
    if p != [] {
      assert (p + x)[0] == p[0] && (p + y)[0] == p[0];
      assert (p + x)[1..] == p[1..] + x;
      assert (p + y)[1..] == p[1..] + y;
      LexLessCommonPrefix(p[1..], x, y);
    } else {
      assert p + x == x && p + y == y;
    }
  }

  // ---------------------------------------------------------------------
  // The greatest existing id with a prefix

  /** `Model.objects.filter(id__startswith=prefix).order_by('-id').first()`. */
  function GreatestWithPrefix(ids: seq<string>, prefix: string): (r: Option<string>)
    ensures r.None? <==> forall i :: 0 <= i < |ids| ==> !StartsWith(ids[i], prefix)
    ensures r.Some? ==> r.value in ids && StartsWith(r.value, prefix)
  {
    if ids == [] then None
    else
      var rest := GreatestWithPrefix(ids[..|ids| - 1], prefix);
      var last := ids[|ids| - 1];
      if !StartsWith(last, prefix) then rest
      else if rest.None? || LexLess(rest.value, last) then Some(last)
      else rest
  }

  /** No id with the prefix comes after the one chosen. */
  lemma {:induction false} GreatestIsMaximum(ids: seq<string>, prefix: string, x: string)
    requires x in ids && StartsWith(x, prefix)
    ensures GreatestWithPrefix(ids, prefix).Some?
    ensures !LexLess(GreatestWithPrefix(ids, prefix).value, x)
  {
    var init := ids[..|ids| - 1];
    var last := ids[|ids| - 1];
    var rest := GreatestWithPrefix(init, prefix);
    var g := GreatestWithPrefix(ids, prefix).value;
    if x == last {
      if g != last {
        assert !LexLess(rest.value, last) && g == rest.value;
        LexLessTotal(g, last);
      } else {
        LexLessIrreflexive(x);
      }
    } else {
      assert x in init;
      GreatestIsMaximum(init, prefix, x);
      if g == last && StartsWith(last, prefix) && g != rest.value {
        // rest < last and not (rest < x): so not (last < x)
        if LexLess(last, x) {
          LexLessTransitive(rest.value, last, x);
        }
      }
    }
  }

  // ---------------------------------------------------------------------
  // The rule as written

  /** `s[-4:]` */
  function LastFour(s: string): (t: string)
    ensures |t| == if |s| >= 4 then 4 else |s|
  {
    if |s| >= 4 then s[|s| - 4..] else s
  }

  /** `int(last[-4:]) + 1`, or 1 when no id has the prefix. `None` stands
      for the `ValueError` that `int()` raises on a tail that is not digits. */
  function NextSerialAsWritten(ids: seq<string>, prefix: string): Option<nat> {
    match GreatestWithPrefix(ids, prefix)
    case None => Some(1)
    case Some(last) =>
      var tail := LastFour(last);
      if tail != [] && AllDigits(tail) then Some(DigitsValue(tail) + 1) else None
  }

  /** `f"{prefix}{new_number:04d}"` with the serial chosen as the source does. */
  function GenerateIdAsWritten(ids: seq<string>, prefix: string): (r: Option<string>)
    ensures r.Some? ==> StartsWith(r.value, prefix)
  {
    match NextSerialAsWritten(ids, prefix)
    case None => None
    case Some(n) => Some(prefix + ZeroPad(n, 4))
  }

  lemma Decimal10000()
    ensures Decimal(10000) == "10000"
  {
    assert Decimal(1) == "1";
    assert Decimal(10) == Decimal(1) + ['0'];
    assert Decimal(100) == Decimal(10) + ['0'];
    assert Decimal(1000) == Decimal(100) + ['0'];
  }

  lemma Value9999()
    ensures DigitsValue("9999") == 9999
  {
    assert "9999"[..3] == "999" && "999"[..2] == "99" && "99"[..1] == "9" && "9"[..0] == "";
  }

  /** After serial 9999 the source prints five digits, and from then on the
      greatest id in string order is still the "…9999" one: the next call
      produces the "…10000" id again, which the unique constraint rejects. */
  lemma AsWrittenRepeatsAfter9999(p: string)
    ensures var ids := [p + "9999", p + "10000"];
            GenerateIdAsWritten(ids, p) == Some(p + "10000") && p + "10000" in ids
  {
    var a, b := p + "9999", p + "10000";
    assert a[..|p|] == p && b[..|p|] == p;
    var none: seq<string> := [];
    assert [a][..0] == none;
    assert GreatestWithPrefix([a], p) == Some(a);
    LexLessCommonPrefix(p, "9999", "10000");
    assert !LexLess("9999", "10000");
    assert [a, b][..1] == [a];
    assert GreatestWithPrefix([a, b], p) == Some(a);
    assert LastFour(a) == "9999";
    Value9999();
    assert NextSerialAsWritten([a, b], p) == Some(10000);
    Decimal10000();
  }

  // ---------------------------------------------------------------------
  // The corrected rule

  /** The serial of `id` under `prefix`: the whole remainder after the prefix,
      when it is a non-empty string of digits. */
  function SerialOf(id: string, prefix: string): Option<nat> {
    if StartsWith(id, prefix) && |id| > |prefix| && AllDigits(id[|prefix|..])
    then Some(DigitsValue(id[|prefix|..]))
    else None
  }

  /** The greatest serial among the ids (0 if none has one). */
  function MaxSerial(ids: seq<string>, prefix: string): (m: nat)
    ensures forall i :: 0 <= i < |ids| && SerialOf(ids[i], prefix).Some? ==> SerialOf(ids[i], prefix).value <= m
    ensures m > 0 ==> exists i :: 0 <= i < |ids| && SerialOf(ids[i], prefix) == Some(m)
  {
    if ids == [] then 0
    else
      var rest := MaxSerial(ids[..|ids| - 1], prefix);
      var s := SerialOf(ids[|ids| - 1], prefix);
      assert forall i :: 0 <= i < |ids| - 1 ==> ids[..|ids| - 1][i] == ids[i];
      if s.Some? && s.value > rest then s.value else rest
  }

  lemma {:induction false} SerialOfPadded(prefix: string, n: nat)
    ensures SerialOf(prefix + ZeroPad(n, 4), prefix) == Some(n)
  {
    var id := prefix + ZeroPad(n, 4);
    assert id[..|prefix|] == prefix;
    assert id[|prefix|..] == ZeroPad(n, 4);
    ZeroPadValue(n, 4);
  }

  /** The corrected id: one more than the greatest serial in use, so the id is
      never one that exists already. */
  function GenerateId(ids: seq<string>, prefix: string): (id: string)
    ensures StartsWith(id, prefix)
    ensures SerialOf(id, prefix) == Some(MaxSerial(ids, prefix) + 1)
    ensures id !in ids
  {
    var n := MaxSerial(ids, prefix) + 1;
    var id := prefix + ZeroPad(n, 4);
    SerialOfPadded(prefix, n);
    assert id[..|prefix|] == prefix;
    id
  }

  // ---------------------------------------------------------------------
  // Below the limit the two rules agree

  /** Every id with the prefix is the prefix followed by a four-digit serial. */
  predicate FourDigitSerials(ids: seq<string>, prefix: string) {
    forall i :: 0 <= i < |ids| && StartsWith(ids[i], prefix) ==>
      exists k: nat :: k <= 9999 && ids[i] == prefix + ZeroPad(k, 4)
  }

  function Pad4(n: nat): string
    requires n < 10000
  {
    [DigitChar(n / 1000), DigitChar(n / 100 % 10), DigitChar(n / 10 % 10), DigitChar(n % 10)]
  }

  lemma Pad4IsZeroPad(n: nat)
    requires n < 10000
    ensures ZeroPad(n, 4) == Pad4(n)
  {
    if n < 10 {
      assert Decimal(n) == [DigitChar(n)];
    } else if n < 100 {
      assert Decimal(n) == [DigitChar(n / 10)] + [DigitChar(n % 10)];
    } else if n < 1000 {
      Shift10(n);
      assert Decimal(n / 10) == [DigitChar(n / 100)] + [DigitChar(n / 10 % 10)];
    } else {
      Shift10(n);
      Shift10(n / 10);
      Shift100(n);
      assert Decimal(n / 100) == [DigitChar(n / 1000)] + [DigitChar(n / 100 % 10)];
      assert Decimal(n / 10) == Decimal(n / 100) + [DigitChar(n / 10 % 10)];
    }
  }

  lemma DigitCharOrder(x: nat, y: nat)
    requires x < 10 && y < 10
    ensures DigitChar(x) < DigitChar(y) <==> x < y
    ensures DigitChar(x) == DigitChar(y) <==> x == y
  {
  }

  /** String order on two four-character strings, spelled out. */
  lemma LexLess4(x: string, y: string)
    requires |x| == 4 && |y| == 4
    ensures LexLess(x, y) <==>
      x[0] < y[0] || (x[0] == y[0] && (x[1] < y[1] || (x[1] == y[1] && (x[2] < y[2] || (x[2] == y[2] && x[3] < y[3])))))
  {
    var x1, y1 := x[1..], y[1..];
    var x2, y2 := x1[1..], y1[1..];
    var x3, y3 := x2[1..], y2[1..];
    assert LexLess(x3, y3) <==> x[3] < y[3] by {
      assert x3[1..] == [] && y3[1..] == [];
    }
    assert LexLess(x2, y2) <==> x[2] < y[2] || (x[2] == y[2] && LexLess(x3, y3));
    assert LexLess(x1, y1) <==> x[1] < y[1] || (x[1] == y[1] && LexLess(x2, y2));
  }

  /** Comparing four-digit numbers digit by digit. */
  lemma DigitwiseOrder(a0: int, a1: int, a2: int, a3: int, b0: int, b1: int, b2: int, b3: int)
    requires 0 <= a1 < 10 && 0 <= a2 < 10 && 0 <= a3 < 10
    requires 0 <= b1 < 10 && 0 <= b2 < 10 && 0 <= b3 < 10
    ensures 1000 * a0 + 100 * a1 + 10 * a2 + a3 < 1000 * b0 + 100 * b1 + 10 * b2 + b3 <==>
      a0 < b0 || (a0 == b0 && (a1 < b1 || (a1 == b1 && (a2 < b2 || (a2 == b2 && a3 < b3)))))
  {
  }

  lemma DigitsOf(n: nat)
    requires n < 10000
    ensures n == 1000 * (n / 1000) + 100 * (n / 100 % 10) + 10 * (n / 10 % 10) + n % 10
    ensures n / 1000 < 10
  {
    Shift10(n);
    Shift10(n / 10);
    Shift100(n);
  }

  /** Dropping one more decimal digit. */
  lemma Shift10(n: nat)
    ensures n / 100 == n / 10 / 10 && n == 10 * (n / 10) + n % 10
  {
  }

  lemma Shift100(n: nat)
    ensures n / 1000 == n / 10 / 100
  {
  }

  /** Four-digit serials sort in string order as they do in number order. */
  lemma Pad4Order(a: nat, b: nat)
    requires a < 10000 && b < 10000
    ensures LexLess(Pad4(a), Pad4(b)) <==> a < b
  {
    DigitsOf(a);
    DigitsOf(b);
    var a0, a1, a2, a3 := a / 1000, a / 100 % 10, a / 10 % 10, a % 10;
    var b0, b1, b2, b3 := b / 1000, b / 100 % 10, b / 10 % 10, b % 10;
    DigitCharOrder(a0, b0);
    DigitCharOrder(a1, b1);
    DigitCharOrder(a2, b2);
    DigitCharOrder(a3, b3);
    var x, y := Pad4(a), Pad4(b);
    assert x == [DigitChar(a0), DigitChar(a1), DigitChar(a2), DigitChar(a3)];
    assert y == [DigitChar(b0), DigitChar(b1), DigitChar(b2), DigitChar(b3)];
    LexLess4(x, y);
    DigitwiseOrder(a0, a1, a2, a3, b0, b1, b2, b3);
  }

  /** Under four-digit serials, the serial of the id chosen by string order is
      the greatest serial. */
  lemma GreatestHasGreatestSerial(ids: seq<string>, prefix: string, kg: nat)
    requires FourDigitSerials(ids, prefix)
    requires kg <= 9999
    requires GreatestWithPrefix(ids, prefix) == Some(prefix + ZeroPad(kg, 4))
    ensures MaxSerial(ids, prefix) == kg
  {
    var g := prefix + ZeroPad(kg, 4);
    forall i | 0 <= i < |ids| && SerialOf(ids[i], prefix).Some?
      ensures SerialOf(ids[i], prefix).value <= kg
    {
      var k: nat :| k <= 9999 && ids[i] == prefix + ZeroPad(k, 4);
      SerialOfPadded(prefix, k);
      GreatestIsMaximum(ids, prefix, ids[i]);
      Pad4IsZeroPad(k);
      Pad4IsZeroPad(kg);
      LexLessCommonPrefix(prefix, ZeroPad(kg, 4), ZeroPad(k, 4));
      Pad4Order(kg, k);
    }
    var gi :| 0 <= gi < |ids| && ids[gi] == g;
    SerialOfPadded(prefix, kg);
    var m := MaxSerial(ids, prefix);
    assert kg <= m;
    if m > 0 {
      var i :| 0 <= i < |ids| && SerialOf(ids[i], prefix) == Some(m);
      assert m <= kg;
    }
  }

  /** With four-digit serials only, the source's rule is the corrected one. */
  lemma AsWrittenAgreesBelowLimit(ids: seq<string>, prefix: string)
    requires FourDigitSerials(ids, prefix)
    ensures GenerateIdAsWritten(ids, prefix) == Some(GenerateId(ids, prefix))
  {
    match GreatestWithPrefix(ids, prefix)
    case None =>
      assert MaxSerial(ids, prefix) == 0;
    case Some(g) =>
      var gi :| 0 <= gi < |ids| && ids[gi] == g;
      var kg: nat :| kg <= 9999 && g == prefix + ZeroPad(kg, 4);
      Pad4IsZeroPad(kg);
      assert LastFour(g) == ZeroPad(kg, 4);
      ZeroPadValue(kg, 4);
      assert NextSerialAsWritten(ids, prefix) == Some(kg + 1);
      GreatestHasGreatestSerial(ids, prefix, kg);
  }
}
