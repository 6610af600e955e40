/** The JavaScript values held in the fields of the untyped table rows, and
    the operations the tables apply to them: truthiness, `==`, `<`,
    `Number(s)`, `(v || "")`, `v.toString()` and template-literal
    rendering. */
module JsValue {
  import opened Optional
  import opened Text

  /** A field value: a string, a number (integers only), `null`, or
      `undefined` (a missing field). */
  datatype Value = Str(s: string) | Num(n: int) | Null | Undef

  predicate Truthy(v: Value) {
    match v
    case Str(s) => s != ""
    case Num(n) => n != 0
    case Null => false
    case Undef => false
  }

  /** `Number(s)` for the strings that hold an integer: white space around
      it is ignored, a sign and leading zeros are allowed, and a blank
      string is 0. None stands for every other string. */
  function StrToNumber(s: string): (r: Option<int>)
    ensures AllSpace(s) ==> r == Some(0)
  {
    TrimEmptyIffBlank(s);
    ReadInteger(Trim(s))
  }

  /** The reading of a trimmed string: empty is 0, then an optional sign
      and decimal digits. */
  function ReadInteger(t: string): Option<int> {
    if t == "" then Some(0)
    else if (t[0] == '-' || t[0] == '+') && |t| > 1 && AllDigits(t[1..]) then
      var m: int := ParseNat(t[1..]);
      Some(if t[0] == '-' then -m else m)
    else if AllDigits(t) then Some(ParseNat(t))
    else None
  }

  /** `Number` reads back the decimal rendering of every integer. */
  lemma StrToNumberRoundTrip(n: int)
    ensures StrToNumber(IntToString(n)) == Some(n)
  {
    var s := IntToString(n);
    UnpaddedIntToString(n);
    TrimUnpadded(s);
    ReadIntToString(n);
  }

  /** The decimal rendering of an integer neither starts nor ends with
      white space. */
  lemma UnpaddedIntToString(n: int)
    ensures !IsSpace(IntToString(n)[0]) && !IsSpace(IntToString(n)[|IntToString(n)| - 1])
  {
    var s := IntToString(n);
    if n < 0 {
      var d := NatToString(-n);
      assert s[|s| - 1] == d[|d| - 1];
    }
  }

  lemma ReadIntToString(n: int)
    ensures ReadInteger(IntToString(n)) == Some(n)
  {
    var s := IntToString(n);
    if n < 0 {
      assert s[1..] == NatToString(-n);
      NatToStringRoundTrip(-n);
    } else {
      NatToStringRoundTrip(n);
    }
  }

  /** `a == b`: `null` and `undefined` equal each other and nothing else,
      and a number and a string compare as numbers, the string read by
      `Number`. */
  function LooseEq(a: Value, b: Value): (r: bool)
    ensures a == b ==> r
    ensures a.Null? || a.Undef? ==> (r <==> b.Null? || b.Undef?)
    ensures a.Num? && b == Str(IntToString(a.n)) ==> r
    ensures a.Num? && b.Str? && AllSpace(b.s) ==> (r <==> a.n == 0)
  {
    StrToNumberRoundTrip(if a.Num? then a.n else 0);
    match (a, b)
    case (Num(x), Str(y)) => StrToNumber(y) == Some(x)
    case (Str(x), Num(y)) => StrToNumber(x) == Some(y)
    case (Null, Undef) => true
    case (Undef, Null) => true
    case _ => a == b
  }

  lemma LooseEqSymmetric(a: Value, b: Value)
    ensures LooseEq(a, b) <==> LooseEq(b, a)
  {
  }

  /** `(v || "")` where a string is expected. */
  function TextOf(v: Value): (r: string)
    ensures Truthy(v) <==> r != ""
    ensures v.Str? ==> r == v.s
  {
    match v
    case Str(s) => s
    case Num(n) => if n == 0 then "" else IntToString(n)
    case Null => ""
    case Undef => ""
  }

  /** `v.toString()` guarded by `v !== undefined && v !== null`, else "". */
  function ToStringOf(v: Value): (r: string)
    ensures v.Num? ==> r == IntToString(v.n) && r != ""
    ensures v.Str? ==> r == v.s
    ensures v.Null? || v.Undef? ==> r == ""
  {
    match v
    case Str(s) => s
    case Num(n) => IntToString(n)
    case Null => ""
    case Undef => ""
  }

  /** The text `toString` gives a number reads back as that number, and a
      number or a string is `==` to its own text. */
  lemma ToStringReadsBack(v: Value)
    ensures v.Num? ==> StrToNumber(ToStringOf(v)) == Some(v.n)
    ensures v.Num? || v.Str? ==> LooseEq(v, Str(ToStringOf(v)))
  {
    if v.Num? {
      StrToNumberRoundTrip(v.n);
    }
  }

  /** `${v}` in a template literal. */
  function Display(v: Value): string {
    match v
    case Str(s) => s
    case Num(n) => IntToString(n)
    case Null => "null"
    case Undef => "undefined"
  }

  /** Where a character sorts among UTF-16 code units. A character beyond
      U+FFFF is stored as a surrogate pair whose first unit lies in
      D800-DBFF, so it sorts after every character below U+D800 and before
      every character from U+E000 on. */
  function UnitRank(c: char): int {
    if c as int < 0xD800 || c as int > 0xFFFF then c as int else c as int + 0x20_0000
  }

  /** Different characters have different ranks. */
  lemma UnitRankInjective(c: char, d: char)
    requires c != d
    ensures UnitRank(c) != UnitRank(d)
  {
    assert c as int != d as int;
  }

  /** Lexicographic order on strings by UTF-16 code units, as JavaScript
      compares strings. */
  predicate StrLess(a: string, b: string)
    decreases |a|
  {
    if b == [] then false
    else if a == [] then true
    else if UnitRank(a[0]) < UnitRank(b[0]) then true
    else if UnitRank(b[0]) < UnitRank(a[0]) then false
    else StrLess(a[1..], b[1..])
  }

  /** A character from U+E000 on sorts before one beyond U+FFFF, although
      its code point is smaller. */
  lemma StrLessByCodeUnit()
    ensures StrLess("\U{10000}", "\U{E000}") && !StrLess("\U{E000}", "\U{10000}")
  {
  }

  lemma {:induction false} StrLessIrreflexive(a: string)
    ensures !StrLess(a, a)
    decreases |a|
  {
    if a != [] {
      StrLessIrreflexive(a[1..]);
    }
  }

  lemma {:induction false} StrLessTransitive(a: string, b: string, c: string)
    requires StrLess(a, b) && StrLess(b, c)
    ensures StrLess(a, c)
    decreases |a|
  {
    if a != [] && UnitRank(a[0]) == UnitRank(b[0]) && UnitRank(b[0]) == UnitRank(c[0]) {
      StrLessTransitive(a[1..], b[1..], c[1..]);
    }
  }

  lemma {:induction false} StrLessAsymmetric(a: string, b: string)
    requires StrLess(a, b)
    ensures !StrLess(b, a)
    decreases |a|
  {
    if a != [] && UnitRank(a[0]) == UnitRank(b[0]) {
      StrLessAsymmetric(a[1..], b[1..]);
    }
  }

  lemma {:induction false} StrLessTotal(a: string, b: string)
    requires a != b
    ensures StrLess(a, b) || StrLess(b, a)
    decreases |a|
  {
    if a != [] && b != [] {
      if a[0] == b[0] {
        assert a == [a[0]] + a[1..] && b == [b[0]] + b[1..];
        StrLessTotal(a[1..], b[1..]);
      } else {
        UnitRankInjective(a[0], b[0]);
      }
    }
  }

  /** A number or `null`, which `<` reads as 0. */
  predicate Numeric(v: Value) {
    v.Num? || v.Null?
  }

  function NumOf(v: Value): int
    requires Numeric(v)
  {
    if v.Num? then v.n else 0
  }

  /** The relational `a < b` of JavaScript on field values. */
  function Less(a: Value, b: Value): (r: bool)
    ensures Numeric(a) && Numeric(b) ==> (r <==> NumOf(a) < NumOf(b))
    ensures a.Undef? || b.Undef? ==> !r
  {
    match (a, b)
    case (Num(x), Num(y)) => x < y
    case (Null, Num(y)) => 0 < y
    case (Num(x), Null) => x < 0
    case (Str(x), Str(y)) => StrLess(x, y)
    case _ => false
  }

  /** Two values `<` orders consistently: both numbers or `null`, or both
      strings. */
  predicate Comparable(a: Value, b: Value) {
    (Numeric(a) && Numeric(b)) || (a.Str? && b.Str?)
  }

  lemma LessIrreflexive(a: Value)
    ensures !Less(a, a)
  {
    if a.Str? {
      StrLessIrreflexive(a.s);
    }
  }

  lemma LessTransitive(a: Value, b: Value, c: Value)
    requires Less(a, b) && Less(b, c)
    ensures Less(a, c)
  {
    if a.Str? {
      StrLessTransitive(a.s, b.s, c.s);
    }
  }

  /** Strings are totally ordered, and numbers by their value. */
  lemma LessTotal(a: Value, b: Value)
    requires (a.Str? && b.Str? && a != b) || (Numeric(a) && Numeric(b) && NumOf(a) != NumOf(b))
    ensures Less(a, b) || Less(b, a)
  {
    if a.Str? {
      StrLessTotal(a.s, b.s);
    }
  }

  lemma LessAsymmetric(a: Value, b: Value)
    requires Less(a, b)
    ensures !Less(b, a)
  {
    if a.Str? {
      StrLessAsymmetric(a.s, b.s);
    }
  }

  /** `null` sorts with the zeros: before the positive numbers and after
      the negative ones. */
  lemma NullSortsAsZero(n: int)
    ensures Less(Null, Num(n)) <==> n > 0
    ensures Less(Num(n), Null) <==> n < 0
  {
  }

  /** On comparable values "not less than" chains: if b >= a and c >= b then c >= a. */
  lemma NotLessTransitive(a: Value, b: Value, c: Value)
    requires Comparable(a, b) && Comparable(b, c)
    requires !Less(b, a) && !Less(c, b)
    ensures !Less(c, a)
  {
    if a.Str? {
      var x, y, z := a.s, b.s, c.s;
      if x == y && y == z {
        StrLessIrreflexive(x);
      } else if x == y {
        StrLessTotal(y, z);
        StrLessAsymmetric(x, z);
      } else if y == z {
        StrLessTotal(x, y);
        StrLessAsymmetric(x, z);
      } else {
        StrLessTotal(x, y);
        StrLessTotal(y, z);
        StrLessTransitive(x, y, z);
        StrLessAsymmetric(x, z);
      }
    }
  }
}
