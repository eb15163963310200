/** Property values, their kinds and the five comparison operators of the query language. */
module Values {
  /** `Integral` and `Floating` are the arithmetic kinds; a `Boolean` is not one of them. */
  datatype Kind = Integral | Floating | Boolean | Textual

  datatype Value =
    | Finite(number: real)
    | PosInf
    | NegInf
    | NaN
    | Flag(flag: bool)
    | Text(text: string)
  {
    predicate IsNumber() {
      Finite? || PosInf? || NegInf? || NaN?
    }

    predicate HasKind(kind: Kind) {
      match kind
      case Integral => Finite? && number == number.Floor as real
      case Floating => IsNumber()
      case Boolean => Flag?
      case Textual => Text?
    }

    /** What the static comparison check admits as the right-hand side for a column of `kind`. */
    predicate ComparesWith(kind: Kind) {
      Text? <==> kind == Textual
    }

    /** A truth value is compared as the number 0 or 1. */
    function Promoted(): Value {
      if Flag? then Finite(if flag then 1.0 else 0.0) else this
    }
  }

  datatype Operator = Greater | GreaterEqual | LessThan | LessEqual | EqualTo

  predicate TextLess(a: string, b: string) {
    b != [] && (a == [] || a[0] < b[0] || (a[0] == b[0] && TextLess(a[1..], b[1..])))
  }

  /** The `<` of each kind; a NaN is not less than anything, nor anything less than it. */
  predicate Less(a: Value, b: Value) {
    match (a.Promoted(), b.Promoted())
    case (Finite(x), Finite(y)) => x < y
    case (Finite(_), PosInf) => true
    case (NegInf, Finite(_)) => true
    case (NegInf, PosInf) => true
    case (Text(x), Text(y)) => TextLess(x, y)
    case _ => false
  }

  predicate Same(a: Value, b: Value) {
    a.Promoted() == b.Promoted() && a != NaN
  }

  predicate Compare(op: Operator, a: Value, b: Value) {
    match op
    case Greater => Less(b, a)
    case GreaterEqual => Less(b, a) || Same(a, b)
    case LessThan => Less(a, b)
    case LessEqual => Less(a, b) || Same(a, b)
    case EqualTo => Same(a, b)
  }

  /** Two values of one kind, neither a NaN. */
  predicate Orderable(a: Value, b: Value) {
    match a
    case Flag(_) => b.Flag?
    case Text(_) => b.Text?
    case _ => a.IsNumber() && b.IsNumber() && a != NaN && b != NaN
  }

  lemma {:induction false} TextTrichotomy(a: string, b: string)
    ensures TextLess(a, b) || a == b || TextLess(b, a)
    ensures !(TextLess(a, b) && TextLess(b, a)) && !(TextLess(a, b) && a == b)
  {
    if a == [] || b == [] || a[0] != b[0] {
    } else {
      TextTrichotomy(a[1..], b[1..]);
      assert a == [a[0]] + a[1..] && b == [b[0]] + b[1..];
    }
  }

  lemma {:induction false} TextTransitive(a: string, b: string, c: string)
    requires TextLess(a, b) && TextLess(b, c)
    ensures TextLess(a, c)
  {
    if a == [] || a[0] != b[0] || b[0] != c[0] {
    } else {
      TextTransitive(a[1..], b[1..], c[1..]);
    }
  }

  /** On values of one kind without NaN the operators come from one strict total order. */
  lemma LessIsTotalOrder(a: Value, b: Value, c: Value)
    requires Orderable(a, b) && Orderable(b, c)
    ensures Less(a, b) || a == b || Less(b, a)
    ensures !(Less(a, b) && Less(b, a)) && !Less(a, a)
    ensures Less(a, b) && Less(b, c) ==> Less(a, c)
    ensures Compare(GreaterEqual, a, b) <==> !Compare(LessThan, a, b)
    ensures Compare(LessEqual, a, b) <==> !Compare(Greater, a, b)
  {
    if a.Text? {
      TextTrichotomy(a.text, b.text);
      TextTrichotomy(a.text, a.text);
      if TextLess(a.text, b.text) && TextLess(b.text, c.text) {
        TextTransitive(a.text, b.text, c.text);
      }
    }
  }

  /** Equality is what the order leaves open, and both of the weak comparisons together. */
  lemma EqualToIsUnordered(a: Value, b: Value)
    ensures Orderable(a, b) ==> (Compare(EqualTo, a, b) <==> !Less(a, b) && !Less(b, a))
    ensures Compare(EqualTo, a, b) <==> Compare(GreaterEqual, a, b) && Compare(LessEqual, a, b)
  {
    if Orderable(a, b) {
      OrderableSymmetric(a, b);
      LessIsTotalOrder(a, b, a);
      LessIsTotalOrder(b, a, b);
    }
    if a.Text? && b.Text? {
      TextTrichotomy(a.text, b.text);
    }
  }

  lemma OrderableSymmetric(a: Value, b: Value)
    ensures Orderable(a, b) <==> Orderable(b, a)
  {
  }

  /** No comparison with a NaN holds, on either side. */
  lemma NaNComparesWithNothing(op: Operator, a: Value)
    ensures !Compare(op, NaN, a) && !Compare(op, a, NaN)
  {
  }

  /** On numbers the five operators are those of the reals; truth values are 0 and 1; infinities bound all numbers. */
  lemma NumbersCompare(x: real, y: real, p: bool, a: Value)
    ensures Compare(Greater, Finite(x), Finite(y)) <==> x > y
    ensures Compare(GreaterEqual, Finite(x), Finite(y)) <==> x >= y
    ensures Compare(LessThan, Finite(x), Finite(y)) <==> x < y
    ensures Compare(LessEqual, Finite(x), Finite(y)) <==> x <= y
    ensures Compare(EqualTo, Finite(x), Finite(y)) <==> x == y
    ensures forall op ::
      && Compare(op, Flag(p), a) == Compare(op, Finite(if p then 1.0 else 0.0), a)
      && Compare(op, a, Flag(p)) == Compare(op, a, Finite(if p then 1.0 else 0.0))
    ensures Compare(LessThan, NegInf, Finite(x)) && Compare(LessThan, Finite(x), PosInf)
  {
  }

  /** Texts are ordered as in a dictionary: a beginning comes first, and the first difference decides. */
  lemma {:induction false} TextOrder(common: string, c: char, d: char, s: string, t: string)
    ensures Compare(LessThan, Text(common + [c] + s), Text(common + [d] + t)) <== c < d
    ensures Compare(LessThan, Text(common), Text(common + [c] + s))
  {
    if common == [] {
      assert common + [c] + s == [c] + s && common + [d] + t == [d] + t;
    } else {
      TextOrder(common[1..], c, d, s, t);
      assert (common + [c] + s)[1..] == common[1..] + [c] + s;
      assert (common + [d] + t)[1..] == common[1..] + [d] + t;
    }
  }

  /** Every value is of exactly one of three kinds, and integral values are numbers. */
  lemma KindsCover(v: Value)
    ensures v.HasKind(Floating) || v.HasKind(Boolean) || v.HasKind(Textual)
    ensures !(v.HasKind(Floating) && v.HasKind(Boolean)) && !(v.HasKind(Boolean) && v.HasKind(Textual))
    ensures !(v.HasKind(Floating) && v.HasKind(Textual)) && (v.HasKind(Integral) ==> v.Finite?)
  {
  }

  /** The integral values are the numbers without a fraction. */
  lemma IntegralExactly(n: int, fraction: real)
    requires 0.0 <= fraction < 1.0
    ensures Finite(n as real + fraction).HasKind(Integral) <==> fraction == 0.0
  {
    assert (n as real + fraction).Floor == n;
  }

  /** Values of one column can be ordered unless one is a NaN, and compare with every right-hand side admitted. */
  lemma KindsOrder(v: Value, w: Value, kind: Kind)
    requires v.HasKind(kind)
    ensures w.HasKind(kind) && v != NaN && w != NaN ==> Orderable(v, w)
    ensures w.ComparesWith(kind) <==> (v.Text? <==> w.Text?)
  {
  }
}
