/** An optional value; `None` stands for NaN in `ToNumber`. */
module Wrappers {
  datatype Option<+T> = None | Some(value: T)
}

/**
 * Cell values as the CSV loader hands them to the analysis code, the JavaScript
 * coercions the analysis relies on (truthiness, `isNaN`, `> 0`), rows, tables
 * and a filter over sequences that every `Array.prototype.filter` of the
 * application is modelled by.
 */
module JsValues {
  import opened Wrappers

  /** A cell of a loaded record. `Num` holds a finite number, taken as exact. */
  datatype Value = Undefined | Null | Num(n: real) | Str(s: string) | Bool(b: bool)

  /** JavaScript truthiness: `if (v)` takes the branch exactly for these. */
  predicate Truthy(v: Value) {
    match v
    case Undefined => false
    case Null => false
    case Num(n) => n != 0.0
    case Str(s) => s != ""
    case Bool(b) => b
  }

  /** `v === null || v === undefined || v === ''` */
  predicate IsMissing(v: Value) {
    v == Null || v == Undefined || v == Str("")
  }

  // ---------------------------------------------------------------------------
  // Numeric coercion (the ToNumber of the language), None standing for NaN
  // ---------------------------------------------------------------------------

  /** The white space and line terminators that ToNumber strips from a string. */
  predicate IsJsSpace(c: char) {
    || c == '\t' || c == '\U{B}' || c == '\U{C}' || c == ' ' || c == '\U{A0}'
    || c == '\U{FEFF}' || c == '\n' || c == '\r' || c == '\U{2028}' || c == '\U{2029}'
    || c == '\U{1680}' || ('\U{2000}' <= c <= '\U{200A}') || c == '\U{202F}'
    || c == '\U{205F}' || c == '\U{3000}'
  }

  /** `s` without its leading white space. */
  function TrimStart(s: string): string {
    if s != [] && IsJsSpace(s[0]) then TrimStart(s[1..]) else s
  }

  /** `s` without its trailing white space. */
  function TrimEnd(s: string): string {
    if s != [] && IsJsSpace(s[|s| - 1]) then TrimEnd(s[..|s| - 1]) else s
  }

  /** TrimStart removes exactly the white space in front: what remains is a
      suffix that does not start with white space. */
  lemma {:induction false} TrimStartRemovesLeadingSpace(s: string)
    ensures |TrimStart(s)| <= |s| && TrimStart(s) == s[|s| - |TrimStart(s)|..]
    ensures TrimStart(s) != [] ==> !IsJsSpace(TrimStart(s)[0])
    ensures forall i :: 0 <= i < |s| - |TrimStart(s)| ==> IsJsSpace(s[i])
  {
    if s != [] && IsJsSpace(s[0]) {
      TrimStartRemovesLeadingSpace(s[1..]);
      forall i | 0 <= i < |s| - |TrimStart(s)| ensures IsJsSpace(s[i]) {
        if i > 0 {
          assert s[i] == s[1..][i - 1];
        }
      }
    }
  }

  /** TrimEnd removes exactly the white space at the end: what remains is a
      prefix that does not end with white space. */
  lemma {:induction false} TrimEndRemovesTrailingSpace(s: string)
    ensures |TrimEnd(s)| <= |s| && TrimEnd(s) == s[..|TrimEnd(s)|]
    ensures TrimEnd(s) != [] ==> !IsJsSpace(TrimEnd(s)[|TrimEnd(s)| - 1])
    ensures forall i :: |TrimEnd(s)| <= i < |s| ==> IsJsSpace(s[i])
  {
    if s != [] && IsJsSpace(s[|s| - 1]) {
      TrimEndRemovesTrailingSpace(s[..|s| - 1]);
    }
  }

  predicate IsDigit(c: char) { '0' <= c <= '9' }

  predicate AllDigits(s: string) { forall i :: 0 <= i < |s| ==> IsDigit(s[i]) }

  /** Length of the run of decimal digits at the front of `s`. */
  function LeadingDigits(s: string): (n: nat)
    ensures n <= |s| && AllDigits(s[..n])
    ensures n < |s| ==> !IsDigit(s[n])
  {
    if s != [] && IsDigit(s[0]) then 1 + LeadingDigits(s[1..]) else 0
  }

  /** The value of a string of decimal digits, most significant first. */
  function DigitsValue(ds: string): nat
    requires AllDigits(ds)
  {
    if ds == [] then 0
    else 10 * DigitsValue(ds[..|ds| - 1]) + (ds[|ds| - 1] as int - '0' as int)
  }

  function Pow10(k: nat): (p: nat)
    ensures p >= 1
  {
    if k == 0 then 1 else 10 * Pow10(k - 1)
  }

  /** An unsigned decimal literal `digits`, `digits.`, `digits.digits` or `.digits`. */
  function ParseUnsigned(s: string): Option<real> {
    var n := LeadingDigits(s);
    var whole := DigitsValue(s[..n]) as real;
    if n == |s| then
      if n > 0 then Some(whole) else None
    else if s[n] != '.' then None
    else
      var frac := s[n + 1..];
      if AllDigits(frac) && n + |frac| > 0
      then Some(whole + DigitsValue(frac) as real / Pow10(|frac|) as real)
      else None
  }

  /** ToNumber applied to a string: surrounding white space is ignored, an
      empty or all-space string is 0, otherwise a signed decimal literal. */
  function StringToNumber(s: string): Option<real> {
    var t := TrimEnd(TrimStart(s));
    if t == [] then Some(0.0)
    else if t[0] == '-' then
      match ParseUnsigned(t[1..])
      case Some(x) => Some(-x)
      case None => None
    else if t[0] == '+' then ParseUnsigned(t[1..])
    else ParseUnsigned(t)
  }

  /** ToNumber on a cell; None is NaN. */
  function ToNumber(v: Value): (r: Option<real>)
    ensures v.Num? ==> r == Some(v.n)
    ensures v == Undefined ==> r == None
    ensures v == Null || v == Str("") ==> r == Some(0.0)
  {
    match v
    case Undefined => None
    case Null => Some(0.0)
    case Num(n) => Some(n)
    case Bool(b) => Some(if b then 1.0 else 0.0)
    case Str(s) => StringToNumber(s)
  }

  /** The global `isNaN(v)`, which coerces its argument first. */
  predicate IsNaN(v: Value) {
    ToNumber(v).None?
  }

  /** `v > 0` with a numeric right operand. */
  predicate IsPositive(v: Value) {
    ToNumber(v).Some? && ToNumber(v).value > 0.0
  }

  lemma AllSpaceIsZero(s: string)
    requires forall i :: 0 <= i < |s| ==> IsJsSpace(s[i])
    ensures StringToNumber(s) == Some(0.0) && !IsNaN(Str(s))
  {
    TrimStartRemovesLeadingSpace(s);
  }

  lemma DecimalExample()
    ensures ToNumber(Str("12.5")) == Some(12.5)
  {
    var s := "12.5";
    assert !IsJsSpace(s[0]) && !IsJsSpace(s[3]);
    assert TrimStart(s) == s;
    assert TrimEnd(s) == s;
    assert LeadingDigits(s) == 2 by {
      assert s[1..] == "2.5" && "2.5"[1..] == ".5";
    }
    assert s[..2] == "12" && s[3..] == "5";
    assert DigitsValue("12") == 12 by { assert "12"[..1] == "1"; }
    assert DigitsValue("5") == 5 by { assert "5"[..0] == ""; }
    assert ParseUnsigned(s) == Some(12.5);
  }

  lemma SignedExample()
    ensures ToNumber(Str(" -3 ")) == Some(-3.0)
  {
    var s := " -3 ";
    assert IsJsSpace(s[0]) && s[1..] == "-3 ";
    assert !IsJsSpace("-3 "[0]);
    assert TrimStart(s) == "-3 ";
    assert IsJsSpace("-3 "[2]) && "-3 "[..2] == "-3";
    assert !IsJsSpace("-3"[1]);
    assert TrimEnd("-3 ") == "-3";
    assert "-3"[1..] == "3";
    assert LeadingDigits("3") == 1 by { assert "3"[1..] == ""; }
    assert "3"[..1] == "3";
    assert DigitsValue("3") == 3 by { assert "3"[..0] == ""; }
  }

  lemma FractionExample()
    ensures ToNumber(Str(".5")) == Some(0.5)
  {
    var s := ".5";
    assert !IsJsSpace(s[0]) && !IsJsSpace(s[1]);
    assert TrimStart(s) == s && TrimEnd(s) == s;
    assert LeadingDigits(s) == 0;
    assert s[..0] == "" && s[1..] == "5";
    assert DigitsValue("5") == 5 by { assert "5"[..0] == ""; }
  }

  lemma NaNExamples()
    ensures IsNaN(Str("PS4")) && IsNaN(Str(".")) && IsNaN(Str("-")) && IsNaN(Undefined)
    ensures !IsNaN(Null) && !IsNaN(Str("")) && !IsNaN(Bool(false))
  {
    assert !IsJsSpace("PS4"[0]) && !IsJsSpace("PS4"[2]);
    assert TrimStart("PS4") == "PS4" && TrimEnd("PS4") == "PS4";
    assert LeadingDigits("PS4") == 0;
    assert !IsJsSpace("."[0]);
    assert TrimStart(".") == "." && TrimEnd(".") == ".";
    assert LeadingDigits(".") == 0 && "."[1..] == "";
    assert !IsJsSpace("-"[0]);
    assert TrimStart("-") == "-" && TrimEnd("-") == "-";
    assert "-"[1..] == "";
  }

  // ---------------------------------------------------------------------------
  // Rows and tables
  // ---------------------------------------------------------------------------

  datatype Cell = Cell(key: string, val: Value)

  predicate UniqueKeys(cells: seq<Cell>) {
    forall i, j :: 0 <= i < j < |cells| ==> cells[i].key != cells[j].key
  }

  /** A record: its own properties in enumeration order, each key once. */
  type Row = cells: seq<Cell> | UniqueKeys(cells) witness []

  /** The loaded dataset, first record first. */
  type Table = seq<Row>

  /** `Object.keys(row)` */
  function Keys(row: Row): (ks: seq<string>)
    ensures |ks| == |row|
    ensures forall i :: 0 <= i < |row| ==> ks[i] == row[i].key
  {
    seq(|row|, i requires 0 <= i < |row| => row[i].key)
  }

  /** `row[col]`: the value stored under `col`, undefined when there is none. */
  function Get(cells: seq<Cell>, col: string): (v: Value)
    ensures forall i :: 0 <= i < |cells| && cells[i].key == col && UniqueKeys(cells) ==> v == cells[i].val
    ensures (forall i :: 0 <= i < |cells| ==> cells[i].key != col) ==> v == Undefined
  {
    if cells == [] then Undefined
    else if cells[0].key == col then cells[0].val
    else Get(cells[1..], col)
  }

  /** `table.map(row => row[col])` */
  function Column(table: Table, col: string): (c: seq<Value>)
    ensures |c| == |table|
    ensures forall i :: 0 <= i < |table| ==> c[i] == Get(table[i], col)
  {
    seq(|table|, i requires 0 <= i < |table| => Get(table[i], col))
  }

  lemma ColumnSnoc(table: Table, col: string, i: nat)
    requires i < |table|
    ensures Column(table[..i + 1], col) == Column(table[..i], col) + [Get(table[i], col)]
  {
  }

  // ---------------------------------------------------------------------------
  // Array.prototype.filter
  // ---------------------------------------------------------------------------

  /** The elements of `s` that satisfy `p`, in their order in `s`. */
  function Filter<T>(s: seq<T>, p: T -> bool): (r: seq<T>)
    ensures |r| <= |s|
    ensures forall i :: 0 <= i < |r| ==> p(r[i])
  {
    if s == [] then []
    else Filter(s[..|s| - 1], p) + (if p(s[|s| - 1]) then [s[|s| - 1]] else [])
  }

  lemma FilterSnoc<T>(s: seq<T>, x: T, p: T -> bool)
    ensures Filter(s + [x], p) == Filter(s, p) + (if p(x) then [x] else [])
  {
    assert (s + [x])[..|s|] == s;
  }

  /** Filtering keeps every satisfying element with its multiplicity and
      drops every other one. */
  lemma {:induction false} FilterMultiset<T>(s: seq<T>, p: T -> bool)
    ensures forall x :: multiset(Filter(s, p))[x] == if p(x) then multiset(s)[x] else 0
  {
    if s != [] {
      var init, last := s[..|s| - 1], s[|s| - 1];
      FilterMultiset(init, p);
      assert s == init + [last];
    }
  }

  /** Filtering preserves order: it distributes over concatenation. */
  lemma {:induction false} FilterConcat<T>(a: seq<T>, b: seq<T>, p: T -> bool)
    ensures Filter(a + b, p) == Filter(a, p) + Filter(b, p)
  {
    if b != [] {
      var init, last := b[..|b| - 1], b[|b| - 1];
      FilterConcat(a, init, p);
      assert a + b == (a + init) + [last];
      FilterSnoc(a + init, last, p);
      assert b == init + [last];
      FilterSnoc(init, last, p);
    } else {
      assert a + b == a;
    }
  }

  /** The set of positions of `s` holding an element that satisfies `p`. */
  function Positions<T>(s: seq<T>, p: T -> bool): set<nat> {
    set i: nat | i < |s| && p(s[i])
  }

  /** `s.filter(p).length` is the number of positions that satisfy `p`. */
  lemma {:induction false} FilterLength<T>(s: seq<T>, p: T -> bool)
    ensures |Filter(s, p)| == |Positions(s, p)|
  {
    if s != [] {
      var init, last := s[..|s| - 1], s[|s| - 1];
      FilterLength(init, p);
      var n := |init|;
      if p(last) {
        assert Positions(s, p) == Positions(init, p) + {n};
        assert n !in Positions(init, p);
      } else {
        assert Positions(s, p) == Positions(init, p);
      }
    } else {
      assert Positions(s, p) == {};
    }
  }

  /** Filtering keeps the whole sequence exactly when every element satisfies `p`. */
  lemma {:induction false} FilterKeepsAll<T>(s: seq<T>, p: T -> bool)
    ensures |Filter(s, p)| == |s| <==> forall i :: 0 <= i < |s| ==> p(s[i])
  {
    if s != [] {
      var init, last := s[..|s| - 1], s[|s| - 1];
      FilterKeepsAll(init, p);
      assert |Filter(s, p)| == |Filter(init, p)| + (if p(last) then 1 else 0);
      assert forall i :: 0 <= i < |init| ==> init[i] == s[i];
    }
  }
}
