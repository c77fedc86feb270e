/** JavaScript values as the ride pipeline sees them: the scalar cells that a CSV
    parser with type inference produces, the coercions `Number(x)`, `x || 0` and
    `String(x)`, truthiness, and the few string operations the pipeline uses.
    What the model does not spell out of the JavaScript host is gathered in `Host`. */
module JsValue {

  datatype Option<+T> = None | Some(value: T)

  /** One cell of a parsed CSV row after type inference. */
  datatype Cell = Num(n: real) | Str(s: string) | Bool(b: bool) | Null

  /** A parsed row: column name to cell.  A column that is missing from the map
      reads as `undefined`. */
  type Row = map<string, Cell>

  /** A JavaScript number as far as the pipeline needs it: NaN or a finite value. */
  datatype JsNum = NaN | Fin(v: real)

  /** Behaviour of the JavaScript host that the model takes as given.
      - parseNumber: `Number(s)` for a string that is not blank; None is NaN.
      - fractionText: `String(x)` for a number that is not an integer.
      - parseJson: `JSON.parse` of the speed column; None is a thrown SyntaxError.
      - parseDate: `new Date(c)` as a UTC day number (days since 1970-01-01);
        None is an Invalid Date.
      - currentYear: `new Date().getFullYear()`. */
  datatype Host = Host(
    parseNumber: string -> Option<real>,
    fractionText: real -> string,
    parseJson: string -> Option<seq<real>>,
    parseDate: Cell -> Option<int>,
    currentYear: int)

  /** `row.col`: the cell, or None for `undefined`. */
  function Get(row: Row, col: string): (v: Option<Cell>)
    ensures v.Some? <==> col in row
    ensures col in row ==> v.value == row[col]
  {
    if col in row then Some(row[col]) else None
  }

  /** JavaScript truthiness of a cell (None is `undefined`). */
  predicate Truthy(v: Option<Cell>)
  {
    match v
    case None => false
    case Some(c) =>
      match c
      case Num(x) => x != 0.0
      case Str(s) => s != ""
      case Bool(b) => b
      case Null => false
  }

  /** The white-space and line-terminator code points that `String.prototype.trim`
      and `Number("...")` skip. */
  predicate IsJsSpace(ch: char)
  {
    var c := ch as int;
    c == 0x09 || c == 0x0A || c == 0x0B || c == 0x0C || c == 0x0D || c == 0x20 ||
    c == 0xA0 || c == 0x1680 || (0x2000 <= c <= 0x200A) || c == 0x2028 || c == 0x2029 ||
    c == 0x202F || c == 0x205F || c == 0x3000 || c == 0xFEFF
  }

  predicate Blank(s: string)
  {
    forall i :: 0 <= i < |s| ==> IsJsSpace(s[i])
  }

  /** `Number(v)`. */
  function ToNumber(v: Option<Cell>, host: Host): (n: JsNum)
    ensures v.None? ==> n == NaN
    ensures v == Some(Null) || v == Some(Str("")) ==> n == Fin(0.0)
    ensures forall x :: v == Some(Num(x)) ==> n == Fin(x)
  {
    match v
    case None => NaN
    case Some(c) =>
      match c
      case Num(x) => Fin(x)
      case Bool(b) => Fin(if b then 1.0 else 0.0)
      case Null => Fin(0.0)
      case Str(s) =>
        if Blank(s) then Fin(0.0)
        else match host.parseNumber(s)
             case None => NaN
             case Some(x) => Fin(x)
  }

  /** `n || 0` on a number: NaN and zero are falsy and become 0. */
  function OrZero(n: JsNum): (r: real)
    ensures n.NaN? ==> r == 0.0
    ensures n.Fin? ==> r == n.v
  {
    match n
    case NaN => 0.0
    case Fin(x) => x
  }

  /** `Number(v) || 0`. */
  function NumberOrZero(v: Option<Cell>, host: Host): real
  {
    OrZero(ToNumber(v, host))
  }

  /** Every `Number(x) || 0` field is 0 when the raw value is undefined, null,
      the empty string, a non-numeric string or 0, and is the number itself when the
      cell holds one. */
  lemma NumberOrZeroDefaults(v: Option<Cell>, host: Host)
    ensures v.None? || v == Some(Null) || v == Some(Str("")) || v == Some(Num(0.0)) ==>
              NumberOrZero(v, host) == 0.0
    ensures forall s :: v == Some(Str(s)) && !Blank(s) && host.parseNumber(s).None? ==>
              NumberOrZero(v, host) == 0.0
    ensures forall x :: v == Some(Num(x)) ==> NumberOrZero(v, host) == x
  {
  }

  /** `a + b` on numbers. */
  function Add(a: JsNum, b: JsNum): (r: JsNum)
    ensures r.NaN? <==> a.NaN? || b.NaN?
    ensures r.Fin? ==> r.v == a.v + b.v
  {
    if a.NaN? || b.NaN? then NaN else Fin(a.v + b.v)
  }

  lemma AddAssociative(a: JsNum, b: JsNum, c: JsNum)
    ensures Add(Add(a, b), c) == Add(a, Add(b, c))
  {
  }

  /** `a / k` for a nonzero constant k. */
  function Div(a: JsNum, k: real): (r: JsNum)
    requires k != 0.0
    ensures r.NaN? <==> a.NaN?
    ensures r.Fin? ==> r.v * k == a.v
  {
    if a.NaN? then NaN else Fin(a.v / k)
  }

  // ---------------------------------------------------------------------
  // toFixed read back

  function Abs(x: real): (a: real)
    ensures a >= 0.0 && (a == x || a == -x)
  {
    if x < 0.0 then -x else x
  }

  /** The whole number `toFixed` writes for x once scaled by its power of ten: the
      nearest one, a half rounded away from zero (`toFixed` rounds the magnitude,
      taking the larger candidate on a tie, and puts the sign back).  Counted one
      unit at a time. */
  function Nearest(x: real): (n: real)
    ensures x - 0.5 <= n <= x + 0.5
    ensures x >= 0.0 ==> x - 0.5 < n
    ensures x < 0.0 ==> n < x + 0.5
    ensures x >= 0.0 ==> n >= 0.0
    ensures x <= 0.0 ==> n <= 0.0
    decreases if x < 0.0 then 2 * ((-x) + 0.5).Floor + 1 else 2 * (x + 0.5).Floor
  {
    if x < 0.0 then -Nearest(-x)
    else if x < 0.5 then 0.0
    else if x < 1.5 then 1.0
    else Nearest(x - 1.0) + 1.0
  }

  predicate Whole(x: real)
  {
    x.Floor as real == x
  }

  lemma {:induction false} NearestWhole(x: real)
    ensures Whole(Nearest(x))
    decreases if x < 0.0 then 2 * ((-x) + 0.5).Floor + 1 else 2 * (x + 0.5).Floor
  {
    if x < 0.0 {
      NearestWhole(-x);
      var k := Nearest(-x).Floor;
      assert Nearest(x) == (-k) as real;
    } else if x >= 1.5 {
      NearestWhole(x - 1.0);
      var k := Nearest(x - 1.0).Floor;
      assert Nearest(x) == (k + 1) as real;
    }
  }

  /** `parseFloat(x.toFixed(0))`. */
  function Round0(x: real): (y: real)
    ensures x - 0.5 <= y <= x + 0.5
  {
    Nearest(x)
  }

  /** `parseFloat(x.toFixed(1))`. */
  function Round1(x: real): (y: real)
    ensures x - 0.05 <= y <= x + 0.05
  {
    Nearest(x * 10.0) / 10.0
  }

  /** `parseFloat(x.toFixed(2))`. */
  function Round2(x: real): (y: real)
    ensures x - 0.005 <= y <= x + 0.005
  {
    Nearest(x * 100.0) / 100.0
  }

  /** `parseFloat((x / 1000).toFixed(2))`: watt-hours as kilowatt-hours, or metres
      as kilometres, to two decimals. */
  function Kilo(x: real): (k: real)
    ensures x - 5.0 <= k * 1000.0 <= x + 5.0
  {
    Round2(x / 1000.0)
  }

  /** `parseFloat(n.toFixed(1))` on a JavaScript number: NaN stays NaN. */
  function RoundNum1(n: JsNum): (m: JsNum)
    ensures m.NaN? <==> n.NaN?
    ensures m.Fin? ==> m.v == Round1(n.v)
  {
    if n.NaN? then NaN else Fin(Round1(n.v))
  }

  /** `parseFloat(n.toFixed(2))` on a JavaScript number. */
  function RoundNum2(n: JsNum): (m: JsNum)
    ensures m.NaN? <==> n.NaN?
    ensures m.Fin? ==> m.v == Round2(n.v)
  {
    if n.NaN? then NaN else Fin(Round2(n.v))
  }

  /** A value already on the grid is kept, so rounding twice is rounding once. */
  lemma RoundTwice(x: real)
    ensures Round1(Round1(x)) == Round1(x)
    ensures Round2(Round2(x)) == Round2(x)
  {
    NearestWhole(x * 10.0);
    var k1 := Nearest(x * 10.0).Floor;
    assert Round1(x) * 10.0 == k1 as real;
    NearestOfWhole(k1);
    NearestWhole(x * 100.0);
    var k2 := Nearest(x * 100.0).Floor;
    assert Round2(x) * 100.0 == k2 as real;
    NearestOfWhole(k2);
  }

  lemma NearestOfWhole(k: int)
    ensures Nearest(k as real) == k as real
  {
    NearestWhole(k as real);
    var j := Nearest(k as real).Floor;
    assert j == k;
  }

  /** Rounding keeps order. */
  lemma RoundMonotone(x: real, y: real)
    requires x <= y
    ensures Nearest(x) <= Nearest(y)
    ensures Round0(x) <= Round0(y) && Round1(x) <= Round1(y) && Round2(x) <= Round2(y)
  {
    NearestMonotone(x, y);
    assert Round1(x) <= Round1(y) by {
      NearestMonotone(x * 10.0, y * 10.0);
    }
    assert Round2(x) <= Round2(y) by {
      NearestMonotone(x * 100.0, y * 100.0);
    }
  }

  lemma NearestMonotone(x: real, y: real)
    requires x <= y
    ensures Nearest(x) <= Nearest(y)
  {
    NearestWhole(x);
    NearestWhole(y);
    var i, j := Nearest(x).Floor, Nearest(y).Floor;
    assert Nearest(x) == i as real && Nearest(y) == j as real;
    if x < y {
      assert (i - j) as real < 1.0;
    }
  }

  /** A value reads back as 0 exactly when it is less than half a unit of the last
      decimal away from 0 (a negative one reads "-0.0", which equals 0); it is
      positive exactly from half a unit up. */
  lemma RoundedZero(x: real)
    ensures Round1(x) == 0.0 <==> -0.05 < x < 0.05
    ensures Round1(x) > 0.0 <==> x >= 0.05
    ensures Round2(x) == 0.0 <==> -0.005 < x < 0.005
    ensures Round2(x) > 0.0 <==> x >= 0.005
  {
    NearestZero(x * 10.0);
    NearestZero(x * 100.0);
  }

  lemma NearestZero(x: real)
    ensures Nearest(x) == 0.0 <==> -0.5 < x < 0.5
    ensures Nearest(x) > 0.0 <==> x >= 0.5
  {
    NearestWhole(x);
    var k := Nearest(x).Floor;
  }

  /** A two-decimal value reaches k / 100 (k > 0) exactly from half a unit below:
      `parseFloat((9.996).toFixed(2)) >= 10`. */
  lemma Round2AtLeast(x: real, k: int)
    requires k > 0
    ensures Round2(x) >= k as real / 100.0 <==> x * 100.0 >= k as real - 0.5
  {
    NearestWhole(x * 100.0);
    var n := Nearest(x * 100.0).Floor;
    assert Round2(x) >= k as real / 100.0 <==> n >= k;
  }

  // ---------------------------------------------------------------------
  // Text

  function DigitChar(d: int): char
    requires 0 <= d < 10
  {
    "0123456789"[d]
  }

  /** Decimal digits of a natural number, without leading zeros. */
  function NatText(n: nat): (s: string)
    ensures 1 <= |s|
    ensures forall i :: 0 <= i < |s| ==> '0' <= s[i] <= '9'
    decreases n
  {
    if n < 10 then [DigitChar(n)] else NatText(n / 10) + [DigitChar(n % 10)]
  }

  /** `String(i)` for an integer i of ordinary size. */
  function IntText(i: int): string
  {
    if i < 0 then "-" + NatText(-i) else NatText(i)
  }

  predicate IsInteger(x: real)
  {
    x == x.Floor as real
  }

  /** `String(x)` for a number. */
  function NumberText(x: real, host: Host): string
  {
    if IsInteger(x) then IntText(x.Floor) else host.fractionText(x)
  }

  /** `String(c)`, also what `c.toString()` and a template literal produce. */
  function CellText(c: Cell, host: Host): string
  {
    match c
    case Num(x) => NumberText(x, host)
    case Str(s) => s
    case Bool(b) => if b then "true" else "false"
    case Null => "null"
  }

  function Repeat(c: char, n: nat): (s: string)
    ensures |s| == n
    ensures forall i :: 0 <= i < n ==> s[i] == c
  {
    if n == 0 then "" else [c] + Repeat(c, n - 1)
  }

  /** `s.padStart(len, c)`. */
  function PadStart(s: string, len: nat, c: char): (r: string)
    ensures |r| == if |s| >= len then |s| else len
    ensures r[|r| - |s|..] == s
    ensures forall i :: 0 <= i < |r| - |s| ==> r[i] == c
  {
    if |s| >= len then s else Repeat(c, len - |s|) + s
  }

  predicate Contains(s: string, c: char)
  {
    exists i :: 0 <= i < |s| && s[i] == c
  }

  /** `s.split(c)` for a one-character separator. */
  function Split(s: string, c: char): (parts: seq<string>)
    ensures 1 <= |parts|
    ensures forall k :: 0 <= k < |parts| ==> !Contains(parts[k], c)
    ensures !Contains(s, c) ==> parts == [s]
    decreases |s|
  {
    if |s| == 0 then [""]
    else
      var rest := Split(s[1..], c);
      if s[0] == c then [""] + rest
      else
        assert !Contains(rest[0], c);
        assert forall i :: 1 <= i < |[s[0]] + rest[0]| ==> ([s[0]] + rest[0])[i] == rest[0][i - 1];
        assert forall i :: 0 <= i < |s| - 1 ==> s[1..][i] == s[i + 1];
        assert !Contains(s, c) ==> rest == [s[1..]] && [s[0]] + s[1..] == s;
        [[s[0]] + rest[0]] + rest[1..]
  }

  /** Splitting at the one separator between two separator-free strings gives
      the two strings. */
  lemma {:induction false} SplitTwo(a: string, b: string, c: char)
    requires !Contains(a, c) && !Contains(b, c)
    ensures Split(a + [c] + b, c) == [a, b]
    decreases |a|
  {
    var s := a + [c] + b;
    if |a| == 0 {
      assert s[0] == c && s[1..] == b;
    } else {
      assert s[1..] == a[1..] + [c] + b;
      assert forall i :: 0 <= i < |a| - 1 ==> a[1..][i] == a[i + 1];
      SplitTwo(a[1..], b, c);
      assert [a[0]] + a[1..] == a;
    }
  }

  /** Joining the parts of a split with the separator gives the string back. */
  function Join(parts: seq<string>, c: char): string
    requires 1 <= |parts|
  {
    if |parts| == 1 then parts[0] else parts[0] + [c] + Join(parts[1..], c)
  }

  lemma {:induction false} SplitJoin(s: string, c: char)
    ensures Join(Split(s, c), c) == s
    decreases |s|
  {
    if |s| > 0 {
      SplitJoin(s[1..], c);
      var rest := Split(s[1..], c);
      if s[0] == c {
        assert Split(s, c) == [""] + rest;
        assert ([""] + rest)[1..] == rest;
      } else {
        var parts := [[s[0]] + rest[0]] + rest[1..];
        assert Split(s, c) == parts;
        if |rest| == 1 {
        } else {
          assert parts[1..] == rest[1..];
          assert Join(rest, c) == rest[0] + [c] + Join(rest[1..], c);
        }
      }
    }
  }

  /** `s.trim()`: the middle of s left once the white space at both ends is cut. */
  function Trim(s: string): (r: string)
    ensures |r| <= |s|
    ensures |r| > 0 ==> !IsJsSpace(r[0]) && !IsJsSpace(r[|r| - 1])
    ensures exists i, j :: 0 <= i <= j <= |s| && r == s[i..j] && Blank(s[..i]) && Blank(s[j..])
  {
    TrimCuts(s, TrimStart(s), TrimEnd(TrimStart(s)));
    TrimEnd(TrimStart(s))
  }

  /** A text cut at both ends, with only white space cut off, is a middle slice
      between two blank stretches. */
  lemma TrimCuts(s: string, t: string, r: string)
    requires |t| <= |s| && t == s[|s| - |t|..] && Blank(s[..|s| - |t|])
    requires |r| <= |t| && r == t[..|r|] && Blank(t[|r|..])
    ensures exists i, j :: 0 <= i <= j <= |s| && r == s[i..j] && Blank(s[..i]) && Blank(s[j..])
  {
    var i, j := |s| - |t|, |s| - |t| + |r|;
    assert s[j..] == t[|r|..];
    PrefixOfSuffix(s, i, |r|);
    assert r == s[i..j] && Blank(s[..i]) && Blank(s[j..]);
  }

  lemma PrefixOfSuffix<T>(s: seq<T>, i: nat, n: nat)
    requires i + n <= |s|
    ensures s[i..][..n] == s[i..i + n]
  {
  }

  function TrimStart(s: string): (r: string)
    ensures |r| <= |s| && r == s[|s| - |r|..]
    ensures |r| > 0 ==> !IsJsSpace(r[0])
    ensures Blank(s[..|s| - |r|])
  {
    if |s| > 0 && IsJsSpace(s[0]) then
      var r := TrimStart(s[1..]);
      assert s[..|s| - |r|] == [s[0]] + s[1..][..|s[1..]| - |r|];
      r
    else s
  }

  function TrimEnd(s: string): (r: string)
    ensures |r| <= |s| && r == s[..|r|]
    ensures |r| > 0 ==> !IsJsSpace(r[|r| - 1])
    ensures |s| > 0 && !IsJsSpace(s[0]) ==> |r| > 0 && r[0] == s[0]
    ensures Blank(s[|r|..])
  {
    if |s| > 0 && IsJsSpace(s[|s| - 1]) then
      var r := TrimEnd(s[..|s| - 1]);
      assert s[|r|..] == s[..|s| - 1][|r|..] + [s[|s| - 1]];
      r
    else s
  }

  /** White space in front of a text does not change what `trimStart` leaves. */
  lemma {:induction false} TrimStartBlank(w: string, s: string)
    requires Blank(w)
    ensures TrimStart(w + s) == TrimStart(s)
    decreases |w|
  {
    if |w| > 0 {
      assert (w + s)[0] == w[0] && (w + s)[1..] == w[1..] + s;
      TrimStartBlank(w[1..], s);
    } else {
      assert w + s == s;
    }
  }

  /** Lower-casing of the characters A-Z.  For the prefix tests of the loader this
      agrees with `toLowerCase`: the prefixes contain neither `i` nor `k`, the only
      ASCII letters that a non-ASCII character lower-cases to. */
  function LowerAscii(s: string): (r: string)
    ensures |r| == |s|
    ensures forall i :: 0 <= i < |s| ==> r[i] == LowerChar(s[i])
  {
    if |s| == 0 then "" else [LowerChar(s[0])] + LowerAscii(s[1..])
  }

  /** One character lower-cased: A-Z to a-z, every other character kept. */
  function LowerChar(c: char): (l: char)
    ensures 'A' <= c <= 'Z' ==> l as int == c as int + 32
    ensures !('A' <= c <= 'Z') ==> l == c
  {
    if 'A' <= c <= 'Z' then (c as int + 32) as char else c
  }

  /** Lower-casing keeps white space and never makes white space. */
  lemma LowerKeepsSpace(s: string, i: int)
    requires 0 <= i < |s|
    ensures IsJsSpace(LowerAscii(s)[i]) == IsJsSpace(s[i])
  {
  }

  /** Lower-casing commutes with slicing. */
  lemma LowerSlice(s: string, i: int, j: int)
    requires 0 <= i <= j <= |s|
    ensures LowerAscii(s[i..j]) == LowerAscii(s)[i..j]
  {
    var a, b := LowerAscii(s[i..j]), LowerAscii(s)[i..j];
    forall k | 0 <= k < j - i
      ensures a[k] == b[k]
    {
      assert s[i..j][k] == s[i + k];
    }
  }

  /** Lower-casing twice is lower-casing once. */
  lemma LowerTwice(s: string)
    ensures LowerAscii(LowerAscii(s)) == LowerAscii(s)
  {
    assert forall k :: 0 <= k < |s| ==> LowerAscii(LowerAscii(s))[k] == LowerAscii(s)[k];
  }

  /** `trimStart` and lower-casing can be done in either order. */
  lemma {:induction false} LowerTrimStart(s: string)
    ensures TrimStart(LowerAscii(s)) == LowerAscii(TrimStart(s))
    decreases |s|
  {
    if |s| > 0 {
      LowerKeepsSpace(s, 0);
      if IsJsSpace(s[0]) {
        LowerSlice(s, 1, |s|);
        LowerTrimStart(s[1..]);
      }
    }
  }

  /** `trimEnd` and lower-casing can be done in either order. */
  lemma {:induction false} LowerTrimEnd(s: string)
    ensures TrimEnd(LowerAscii(s)) == LowerAscii(TrimEnd(s))
    decreases |s|
  {
    if |s| > 0 {
      var l, n := LowerAscii(s), |s|;
      LowerKeepsSpace(s, n - 1);
      if IsJsSpace(s[n - 1]) {
        LowerSlice(s, 0, n - 1);
        LowerTrimEnd(s[..n - 1]);
        assert TrimEnd(l) == TrimEnd(l[..n - 1]);
        assert TrimEnd(s) == TrimEnd(s[..n - 1]);
      } else {
        assert TrimEnd(l) == l && TrimEnd(s) == s;
      }
    } else {
      assert LowerAscii(s) == s == TrimEnd(s);
    }
  }

  /** `trim` and lower-casing can be done in either order. */
  lemma LowerTrim(s: string)
    ensures Trim(LowerAscii(s)) == LowerAscii(Trim(s))
  {
    LowerTrimStart(s);
    LowerTrimEnd(TrimStart(s));
  }

  /** `a < b` on strings: code-point lexicographic order. */
  predicate TextLess(a: string, b: string)
    decreases |a|
  {
    |b| > 0 && (|a| == 0 || a[0] < b[0] || (a[0] == b[0] && TextLess(a[1..], b[1..])))
  }

  lemma {:induction false} TextLessAsymmetric(a: string, b: string)
    ensures TextLess(a, b) ==> !TextLess(b, a)
    decreases |a|
  {
    if |a| > 0 && |b| > 0 && a[0] == b[0] {
      TextLessAsymmetric(a[1..], b[1..]);
    }
  }

  lemma {:induction false} TextLessTotal(a: string, b: string)
    ensures a == b || TextLess(a, b) || TextLess(b, a)
    decreases |a|
  {
    if |a| > 0 && |b| > 0 && a[0] == b[0] {
      TextLessTotal(a[1..], b[1..]);
      if a[1..] == b[1..] {
        assert a == [a[0]] + a[1..] && b == [b[0]] + b[1..];
      }
    }
  }

  lemma {:induction false} TextLessTransitive(a: string, b: string, c: string)
    requires TextLess(a, b) && TextLess(b, c)
    ensures TextLess(a, c)
    decreases |a|
  {
    if |a| > 0 && a[0] == b[0] && b[0] == c[0] {
      TextLessTransitive(a[1..], b[1..], c[1..]);
    }
  }

  predicate StartsWith(s: string, prefix: string)
  {
    |prefix| <= |s| && s[..|prefix|] == prefix
  }

  /** `parseInt(s, 10)`: optional leading white space and sign, then the longest
      run of decimal digits; None (NaN) when there is no digit.  It also stands for
      `parseInt(s)` without a radix, which differs only for a "0x" prefix. */
  function ParseInt(s: string): Option<int>
  {
    var t := TrimStart(s);
    if |t| > 0 && (t[0] == '-' || t[0] == '+') then
      match Digits(t[1..], 0, false)
      case None => None
      case Some(n) => Some(if t[0] == '-' then -(n as int) else n as int)
    else
      match Digits(t, 0, false)
      case None => None
      case Some(n) => Some(n)
  }

  /** `parseInt` reads back what `String` wrote for a natural number. */
  lemma ParseIntNatText(n: nat)
    ensures ParseInt(NatText(n)) == Some(n)
  {
    var s := NatText(n);
    assert !IsJsSpace(s[0]);
    assert TrimStart(s) == s;
    NatTextDigits(n);
  }

  function DigitValue(c: char): int
    requires '0' <= c <= '9'
  {
    c as int - '0' as int
  }

  /** The value of the longest digit prefix of s, continuing from `acc`;
      `seen` says whether a digit came before. */
  function Digits(s: string, acc: nat, seen: bool): Option<nat>
    decreases |s|
  {
    if |s| > 0 && '0' <= s[0] <= '9' then Digits(s[1..], acc * 10 + DigitValue(s[0]), true)
    else if seen then Some(acc) else None
  }

  lemma {:induction false} DigitsAppend(s: string, d: char, acc: nat, seen: bool)
    requires forall i :: 0 <= i < |s| ==> '0' <= s[i] <= '9'
    requires '0' <= d <= '9'
    ensures Digits(s + [d], acc, seen) ==
      Some(DigitsValue(s, acc) * 10 + DigitValue(d))
    decreases |s|
  {
    if |s| == 0 {
      assert (s + [d])[1..] == [];
    } else {
      assert (s + [d])[1..] == s[1..] + [d];
      DigitsAppend(s[1..], d, acc * 10 + DigitValue(s[0]), true);
    }
  }

  function DigitsValue(s: string, acc: nat): nat
    requires forall i :: 0 <= i < |s| ==> '0' <= s[i] <= '9'
    decreases |s|
  {
    if |s| == 0 then acc else DigitsValue(s[1..], acc * 10 + DigitValue(s[0]))
  }

  lemma {:induction false} NatTextDigits(n: nat)
    ensures Digits(NatText(n), 0, false) == Some(n)
    ensures DigitsValue(NatText(n), 0) == n
    decreases n
  {
    if n < 10 {
      DigitRoundTrip(n);
      assert NatText(n) == [DigitChar(n)];
      assert NatText(n)[1..] == [];
    } else {
      var m, d := n / 10, n % 10;
      var s := NatText(m);
      NatTextDigits(m);
      DigitRoundTrip(d);
      assert NatText(n) == s + [DigitChar(d)];
      DigitsAppend(s, DigitChar(d), 0, false);
      DigitsValueAppend(s, DigitChar(d), 0);
      assert m * 10 + d == n;
    }
  }

  lemma DigitRoundTrip(d: nat)
    requires d < 10
    ensures '0' <= DigitChar(d) <= '9' && DigitValue(DigitChar(d)) == d
  {
  }

  lemma {:induction false} DigitsValueAppend(s: string, d: char, acc: nat)
    requires forall i :: 0 <= i < |s| ==> '0' <= s[i] <= '9'
    requires '0' <= d <= '9'
    ensures DigitsValue(s + [d], acc) == DigitsValue(s, acc) * 10 + DigitValue(d)
    decreases |s|
  {
    if |s| == 0 {
      assert (s + [d])[1..] == [];
    } else {
      assert (s + [d])[1..] == s[1..] + [d];
      DigitsValueAppend(s[1..], d, acc * 10 + DigitValue(s[0]));
    }
  }
}
