/** The three-valued expression language of scripts/kconfig/expr.h and its
    evaluator (expr_calc_value in scripts/kconfig/expr.c). */
module Exprs {

  /** enum tristate: no < mod < yes. The C code computes on the numbers 0, 1, 2. */
  type Tristate = t: int | 0 <= t <= 2 witness 0

  const NO: Tristate := 0
  const MOD: Tristate := 1
  const YES: Tristate := 2

  function TriAnd(a: Tristate, b: Tristate): Tristate { if a < b then a else b }
  function TriOr(a: Tristate, b: Tristate): Tristate { if a > b then a else b }
  function TriNot(a: Tristate): Tristate { 2 - a }

  /** What a non-tristate user of a value sees: m counts as y. */
  function Promote(a: Tristate): Tristate { if a == MOD then YES else a }

  function TriString(a: Tristate): string {
    if a == NO then "n" else if a == MOD then "m" else "y"
  }

  datatype SymbolType = TUnknown | TBoolean | TTristate | TInt | THex | TString | TOther

  /** A struct symbol as the expression code sees it: pointer identity (id),
      type, and the SYMBOL_CONST flag. Constants have no type. */
  datatype SymbolFields = Symbol(id: nat, typ: SymbolType, isConst: bool)

  type Symbol = s: SymbolFields | s.isConst ==> s.typ == TUnknown
    witness SymbolFields.Symbol(0, TUnknown, true)

  const SYM_NO: Symbol := SymbolFields.Symbol(0, TUnknown, true)
  const SYM_MOD: Symbol := SymbolFields.Symbol(1, TUnknown, true)
  const SYM_YES: Symbol := SymbolFields.Symbol(2, TUnknown, true)

  predicate TwoOrThreeValued(t: SymbolType) { t == TBoolean || t == TTristate }

  /** E_AND and E_OR, the two types the spine-walking code is parameterised by. */
  datatype Junction = Conj | Disj

  datatype Relation = Equal | Unequal | Lth | Leq | Gth | Geq

  datatype Expr =
    | Sym(sym: Symbol)
    | Not(arg: Expr)
    | Bin(op: Junction, left: Expr, right: Expr)
    | Cmp(rel: Relation, lhs: Symbol, rhs: Symbol)

  datatype Option<+T> = None | Some(value: T)

  /** e->type == type */
  predicate IsOp(t: Junction, e: Expr) { e.Bin? && e.op == t }

  /** The constant a join leaves behind: y on an and-spine, n on an or-spine. */
  function Neutral(t: Junction): Expr { if t == Conj then Sym(SYM_YES) else Sym(SYM_NO) }

  function Absorber(t: Junction): Expr { if t == Conj then Sym(SYM_NO) else Sym(SYM_YES) }

  function Apply(t: Junction, a: Tristate, b: Tristate): Tristate {
    if t == Conj then TriAnd(a, b) else TriOr(a, b)
  }

  function Size(e: Expr): nat {
    match e
    case Sym(_) => 1
    case Cmp(_, _, _) => 1
    case Not(a) => 1 + Size(a)
    case Bin(_, l, r) => 1 + Size(l) + Size(r)
  }

  // ----- valuations -----

  /** expr_parse_string's verdict on a symbol's string under the symbol's type. */
  datatype Parsed = KString | KSigned(s: int) | KUnsigned(u: nat) | KInvalid

  datatype SymVal = SymVal(tri: Tristate, str: string, parsed: Parsed)

  type Valuation = Symbol -> SymVal

  predicate SymOk(s: Symbol, sv: SymVal) {
    && (s.typ == TBoolean ==> sv.tri != MOD)
    && (TwoOrThreeValued(s.typ) ==> sv.str == TriString(sv.tri) && sv.parsed == KString)
    && (s == SYM_NO ==> sv == SymVal(NO, "n", KString))
    && (s == SYM_MOD ==> sv == SymVal(MOD, "m", KString))
    && (s == SYM_YES ==> sv == SymVal(YES, "y", KString))
    && (s.typ == TOther <==> sv.parsed == KInvalid)
  }

  /** A valuation the symbol table can produce: bool symbols are n or y, the
      string of a bool or tristate symbol agrees with its value, the constants
      have their own value, and distinct constants have distinct strings. */
  ghost predicate WellFormed(v: Valuation) {
    && (forall s: Symbol :: SymOk(s, v(s)))
    && (forall c: Symbol, d: Symbol :: c.isConst && d.isConst && c != d ==> v(c).str != v(d).str)
  }

  /** The valuation with given values of the bool and tristate symbols, in which every
      constant other than n, m and y has a string of its own. */
  function SampleVal(f: Symbol -> Tristate, s: Symbol): SymVal {
    var tri := if s.typ == TBoolean then Promote(f(s)) else f(s);
    if s == SYM_NO then SymVal(NO, "n", KString)
    else if s == SYM_MOD then SymVal(MOD, "m", KString)
    else if s == SYM_YES then SymVal(YES, "y", KString)
    else if s.typ == TOther then SymVal(NO, "", KInvalid)
    else if s.isConst then SymVal(NO, seq(s.id, i => 'c'), KString)
    else SymVal(tri, TriString(tri), KString)
  }

  /** Well-formed valuations exist: the tristate symbols can have any values, and the
      bool symbols any but m. */
  lemma WellFormedExists(f: Symbol -> Tristate) returns (v: Valuation)
    ensures WellFormed(v)
    ensures forall s: Symbol | TwoOrThreeValued(s.typ) :: v(s).tri == if s.typ == TBoolean then Promote(f(s)) else f(s)
  {
    v := (s: Symbol) => SampleVal(f, s);
    forall c: Symbol, d: Symbol | c.isConst && d.isConst && c != d ensures v(c).str != v(d).str {
      assert c.id != d.id;
      TriStringInjective(NO, MOD);
      assert c.id > 2 ==> |v(c).str| == c.id;
      assert d.id > 2 ==> |v(d).str| == d.id;
    }
  }

  /** strcmp, as a sign. */
  function StrCmp(a: string, b: string): int {
    if |a| == 0 && |b| == 0 then 0
    else if |a| == 0 then -1
    else if |b| == 0 then 1
    else if a[0] != b[0] then (if a[0] < b[0] then -1 else 1)
    else StrCmp(a[1..], b[1..])
  }

  lemma {:induction false} StrCmpZero(a: string, b: string)
    ensures StrCmp(a, b) == 0 <==> a == b
  {
    if |a| > 0 && |b| > 0 && a[0] == b[0] {
      StrCmpZero(a[1..], b[1..]);
      assert a == [a[0]] + a[1..] && b == [b[0]] + b[1..];
    }
  }

  const TWO64: nat := 0x1_0000_0000_0000_0000

  /** Reading the union string_value through its unsigned member. */
  function AsUnsigned(p: Parsed): int
    requires p.KSigned? || p.KUnsigned?
  {
    if p.KUnsigned? then p.u else p.s % TWO64
  }

  function Sign(a: int, b: int): int { if a > b then 1 else if a < b then -1 else 0 }

  function Decide(rel: Relation, res: int): Tristate {
    if (match rel
        case Equal => res == 0
        case Unequal => res != 0
        case Lth => res < 0
        case Leq => res <= 0
        case Gth => res > 0
        case Geq => res >= 0)
    then YES else NO
  }

  function Compare(rel: Relation, l: Symbol, r: Symbol, v: Valuation): Tristate {
    var bothStrings := l.typ == TString && r.typ == TString;
    var k1 := if bothStrings then KString else v(l).parsed;
    var k2 := if bothStrings then KString else v(r).parsed;
    if k1.KString? || k2.KString? then Decide(rel, StrCmp(v(l).str, v(r).str))
    else if k1.KInvalid? || k2.KInvalid? then
      if rel != Equal && rel != Unequal then NO
      else Decide(rel, StrCmp(v(l).str, v(r).str))
    else if k1.KUnsigned? || k2.KUnsigned? then Decide(rel, Sign(AsUnsigned(k1), AsUnsigned(k2)))
    else Decide(rel, Sign(k1.s, k2.s))
  }

  /** expr_calc_value once every symbol's value is known. */
  function Eval(e: Expr, v: Valuation): Tristate {
    match e
    case Sym(s) => v(s).tri
    case Not(a) => TriNot(Eval(a, v))
    case Bin(t, l, r) => Apply(t, Eval(l, v), Eval(r, v))
    case Cmp(rel, l, r) => Compare(rel, l, r, v)
  }

  /** A NULL expression is y. */
  function EvalOpt(e: Option<Expr>, v: Valuation): Tristate {
    match e case None => YES case Some(x) => Eval(x, v)
  }

  /** The two expressions agree in every well-formed valuation. */
  ghost predicate Equiv(e: Expr, f: Expr) {
    forall v: Valuation | WellFormed(v) :: Eval(e, v) == Eval(f, v)
  }

  /** A comparison of a bool or tristate symbol is a comparison of strings, for all six
      relations. */
  lemma CompareByString(rel: Relation, l: Symbol, r: Symbol, v: Valuation)
    requires WellFormed(v) && (TwoOrThreeValued(l.typ) || TwoOrThreeValued(r.typ))
    ensures Compare(rel, l, r, v) == Decide(rel, StrCmp(v(l).str, v(r).str))
    ensures rel == Equal || rel == Unequal ==>
              Compare(rel, l, r, v) == (if (v(l).str == v(r).str) == (rel == Equal) then YES else NO)
  {
    assert SymOk(l, v(l)) && SymOk(r, v(r));
    StrCmpZero(v(l).str, v(r).str);
  }

  /** The relation of two numbers. */
  predicate Holds(rel: Relation, a: int, b: int) {
    match rel
    case Equal => a == b
    case Unequal => a != b
    case Lth => a < b
    case Leq => a <= b
    case Gth => a > b
    case Geq => a >= b
  }

  /** Two operands that both parse as numbers, unless both are of string type, are compared
      as numbers: as signed ones, or modulo 2^64 if one of them is hexadecimal. */
  lemma CompareNumbers(rel: Relation, l: Symbol, r: Symbol, v: Valuation)
    requires !(l.typ == TString && r.typ == TString)
    ensures v(l).parsed.KSigned? && v(r).parsed.KSigned? ==>
              (Compare(rel, l, r, v) == YES <==> Holds(rel, v(l).parsed.s, v(r).parsed.s))
    ensures v(l).parsed.KUnsigned? && v(r).parsed.KUnsigned? ==>
              (Compare(rel, l, r, v) == YES <==> Holds(rel, v(l).parsed.u, v(r).parsed.u))
    ensures v(l).parsed.KSigned? && v(r).parsed.KUnsigned? ==>
              (Compare(rel, l, r, v) == YES <==> Holds(rel, v(l).parsed.s % TWO64, v(r).parsed.u))
    ensures v(l).parsed.KUnsigned? && v(r).parsed.KSigned? ==>
              (Compare(rel, l, r, v) == YES <==> Holds(rel, v(l).parsed.u, v(r).parsed.s % TWO64))
  {
  }

  /** The operands are compared as strings: both are of string type, or one of them does
      not parse as a number. */
  predicate AsStrings(l: Symbol, r: Symbol, v: Valuation) {
    (l.typ == TString && r.typ == TString) || v(l).parsed.KString? || v(r).parsed.KString?
  }

  /** An operand of a type that cannot be parsed has no order against a number. */
  lemma CompareStrings(rel: Relation, l: Symbol, r: Symbol, v: Valuation)
    requires AsStrings(l, r, v) || v(l).parsed.KInvalid? || v(r).parsed.KInvalid?
    ensures rel == Equal || rel == Unequal ==>
              (Compare(rel, l, r, v) == YES <==> (v(l).str == v(r).str) == (rel == Equal))
    ensures rel != Equal && rel != Unequal ==>
              (Compare(rel, l, r, v) == YES <==> AsStrings(l, r, v) && Holds(rel, StrCmp(v(l).str, v(r).str), 0))
  {
    StrCmpZero(v(l).str, v(r).str);
  }

  /** strcmp orders by the first place at which the strings differ, a prefix first. */
  lemma {:induction false} StrCmpOrders(a: string, b: string, i: nat)
    requires i <= |a| && i <= |b| && a[..i] == b[..i]
    ensures i == |a| && i < |b| ==> StrCmp(a, b) < 0 < StrCmp(b, a)
    ensures i < |a| && i < |b| && a[i] < b[i] ==> StrCmp(a, b) < 0 < StrCmp(b, a)
  {
    if i > 0 {
      assert a[0] == a[..i][0] == b[..i][0] == b[0];
      assert a[1..][..i - 1] == a[..i][1..] && b[1..][..i - 1] == b[..i][1..];
      StrCmpOrders(a[1..], b[1..], i - 1);
    }
  }

  /** Comparing a bool or tristate symbol with the constant k for equality is comparing
      its value with k. */
  lemma CompareWithTri(rel: Relation, l: Symbol, k: Tristate, v: Valuation)
    requires WellFormed(v) && TwoOrThreeValued(l.typ)
    requires rel == Equal || rel == Unequal
    ensures Compare(rel, l, TriSymbol(k), v) == (if (v(l).tri == k) == (rel == Equal) then YES else NO)
  {
    CompareByString(rel, l, TriSymbol(k), v);
    assert SymOk(l, v(l)) && SymOk(TriSymbol(k), v(TriSymbol(k)));
    TriStringInjective(v(l).tri, k);
  }

  /** For the order relations that is so if and only if it is not m against n: the
      strings are ordered m < n < y. */
  lemma CompareOrderWithTri(rel: Relation, l: Symbol, k: Tristate, v: Valuation)
    requires WellFormed(v) && TwoOrThreeValued(l.typ) && rel != Equal && rel != Unequal
    ensures Compare(rel, l, TriSymbol(k), v) == Decide(rel, Sign(v(l).tri, k))
            <==> !(v(l).tri != k && v(l).tri != YES && k != YES)
  {
    CompareByString(rel, l, TriSymbol(k), v);
    assert SymOk(l, v(l)) && SymOk(TriSymbol(k), v(TriSymbol(k)));
    TriStringOrder(v(l).tri, k);
  }

  /** A tristate symbol that is m is less than n in this sense. */
  lemma ModBelowNo(l: Symbol, v: Valuation)
    requires WellFormed(v) && TwoOrThreeValued(l.typ) && v(l).tri == MOD
    ensures Compare(Lth, l, SYM_NO, v) == YES && v(l).tri > v(SYM_NO).tri
  {
    CompareByString(Lth, l, SYM_NO, v);
    assert SymOk(l, v(l)) && SymOk(SYM_NO, v(SYM_NO));
    TriStringOrder(MOD, NO);
  }

  lemma TriStringOrder(a: Tristate, b: Tristate)
    ensures StrCmp(TriString(a), TriString(b)) ==
            if a == b then 0 else if a == YES then 1 else if b == YES then -1 else if a == MOD then -1 else 1
  {
    assert "n"[0] == 'n' && "m"[0] == 'm' && "y"[0] == 'y';
    StrCmpZero(TriString(a), TriString(b));
  }

  function TriSymbol(k: Tristate): Symbol {
    if k == NO then SYM_NO else if k == MOD then SYM_MOD else SYM_YES
  }

  lemma TriStringInjective(a: Tristate, b: Tristate)
    ensures TriString(a) == TriString(b) <==> a == b
  {
    assert "n"[0] == 'n' && "m"[0] == 'm' && "y"[0] == 'y';
  }

  // ----- struct expr ** : slots of a tree -----

  /** One pointer field of a node: left.expr or right.expr. */
  datatype Side = L | R

  /** A struct expr ** into a tree is the path of fields from the tree's root
      slot; two slots are the same memory exactly when the paths are equal. */
  type Path = seq<Side>

  predicate ValidPath(e: Expr, p: Path) {
    p == [] ||
    match e
    case Bin(_, l, r) => ValidPath(if p[0] == L then l else r, p[1..])
    case Not(a) => p[0] == L && ValidPath(a, p[1..])
    case _ => false
  }

  function At(e: Expr, p: Path): Expr
    requires ValidPath(e, p)
  {
    if p == [] then e
    else match e
      case Bin(_, l, r) => At(if p[0] == L then l else r, p[1..])
      case Not(a) => At(a, p[1..])
  }

  function Put(e: Expr, p: Path, x: Expr): Expr
    requires ValidPath(e, p)
  {
    if p == [] then x
    else match e
      case Bin(t, l, r) => if p[0] == L then Bin(t, Put(l, p[1..], x), r) else Bin(t, l, Put(r, p[1..], x))
      case Not(a) => Not(Put(a, p[1..], x))
  }

  lemma {:induction false} PutAt(e: Expr, p: Path, x: Expr)
    requires ValidPath(e, p)
    ensures ValidPath(Put(e, p, x), p) && At(Put(e, p, x), p) == x
    ensures Put(e, p, At(e, p)) == e
    ensures Size(Put(e, p, x)) == Size(e) - Size(At(e, p)) + Size(x)
    decreases p
  {
    if p != [] {
      match e
      case Bin(t, l, r) => PutAt(if p[0] == L then l else r, p[1..], x);
      case Not(a) => PutAt(a, p[1..], x);
    }
  }

  lemma {:induction false} PutPut(e: Expr, p: Path, x: Expr)
    requires ValidPath(e, p)
    ensures ValidPath(Put(e, p, x), p) && At(Put(e, p, x), p) == x
    ensures forall y :: Put(Put(e, p, x), p, y) == Put(e, p, y)
    decreases p
  {
    if p != [] {
      match e
      case Bin(t, l, r) => PutPut(if p[0] == L then l else r, p[1..], x);
      case Not(a) => PutPut(a, p[1..], x);
    }
  }

  /** A slot reached through another slot. */
  lemma {:induction false} AtConcat(e: Expr, p: Path, q: Path)
    requires ValidPath(e, p) && ValidPath(At(e, p), q)
    ensures ValidPath(e, p + q) && At(e, p + q) == At(At(e, p), q)
    ensures forall x :: Put(e, p + q, x) == Put(e, p, Put(At(e, p), q, x))
    decreases p
  {
    if p == [] {
      assert p + q == q;
    } else {
      assert (p + q)[1..] == p[1..] + q;
      match e
      case Bin(t, l, r) => AtConcat(if p[0] == L then l else r, p[1..], q);
      case Not(a) => AtConcat(a, p[1..], q);
    }
  }

  /** The two child slots of the and/or node in slot p. */
  lemma ChildSlots(e: Expr, p: Path)
    requires ValidPath(e, p) && At(e, p).Bin?
    ensures ValidPath(e, p + [L]) && At(e, p + [L]) == At(e, p).left
    ensures ValidPath(e, p + [R]) && At(e, p + [R]) == At(e, p).right
    ensures forall x :: Put(e, p + [L], x) == Put(e, p, Bin(At(e, p).op, x, At(e, p).right))
    ensures forall x :: Put(e, p + [R], x) == Put(e, p, Bin(At(e, p).op, At(e, p).left, x))
  {
    var n := At(e, p);
    assert [L][1..] == [] && [R][1..] == [];
    assert ValidPath(n.left, [L][1..]) && ValidPath(n.right, [R][1..]);
    AtConcat(e, p, [L]);
    AtConcat(e, p, [R]);
    forall x ensures Put(n, [L], x) == Bin(n.op, x, n.right) && Put(n, [R], x) == Bin(n.op, n.left, x) {
      assert Put(n.left, [L][1..], x) == x && Put(n.right, [R][1..], x) == x;
    }
  }

  /** Replacing a subexpression by an equivalent one keeps the whole. */
  lemma {:induction false} PutEquiv(e: Expr, p: Path, x: Expr)
    requires ValidPath(e, p) && Equiv(At(e, p), x)
    ensures Equiv(e, Put(e, p, x))
    decreases p
  {
    if p != [] {
      match e
      case Bin(t, l, r) => PutEquiv(if p[0] == L then l else r, p[1..], x);
      case Not(a) => PutEquiv(a, p[1..], x);
    }
  }

  /** An expression tree whose nodes the rewriting code overwrites in place. */
  class ExprTree {
    var root: Expr

    constructor (e: Expr)
      ensures root == e
    {
      root := e;
    }
  }
}
