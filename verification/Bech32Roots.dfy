/** The roots of the generator of Bech32 in GF(1024), and the changes they find out, src/bech32.cpp:138-181. */
module Bech32Roots {

  import C = CheckCodes
  import R = RootCodes
  import W = Bech32Words
  import S = Syndromes
  import opened Gf1024

  function Embed(v: bv5): Elem {
    Elem(0, v)
  }

  const FIELD32: S.Field<bv5, Elem> := S.Field(W.CODE, FIELD, v => Embed(v))

  /** The powers of e that are roots of the generator are this one and the next two. */
  const FIRST: nat := 997

  lemma EmbedsHolds(x: bv5, y: bv5)
    ensures S.Embeds(FIELD32, x, y)
  {
  }

  lemma Field32Lawful()
    ensures S.Lawful(FIELD32)
  {
    W.CodeLawful();
    FieldLawful();
    forall x: bv5, y: bv5 ensures S.Embeds(FIELD32, x, y) { EmbedsHolds(x, y); }
  }

  // ----- The generator has the roots e^997, e^998 and e^999 -----

  /** One more coefficient at the element c. */
  function Next(c: Elem, z: Elem, v: bv5): Elem {
    Add(Times(c, z), Embed(v))
  }

  /** The value of a remainder at the element c. */
  function Value(c: Elem, s: C.Remainder<bv5>): Elem {
    Next(c, Next(c, Next(c, Next(c, Next(c, Embed(s.a), s.b), s.c), s.d), s.e), s.f)
  }

  const LEADING: C.Remainder<bv5> := C.Remainder(1, 0, 0, 0, 0, 0)

  lemma ValueAt(m: nat, s: C.Remainder<bv5>)
    ensures S.At(FIELD32, m, s) == Value(Power(m), s)
  {
    var c := Power(m);
    var z0 := Embed(s.a);
    var z1 := Next(c, z0, s.b);
    var z2 := Next(c, z1, s.c);
    var z3 := Next(c, z2, s.d);
    IterIs(m, z0);
    IterIs(m, z1);
    IterIs(m, z2);
    IterIs(m, z3);
    IterIs(m, Next(c, z3, s.e));
  }

  // Products in GF(32), one coefficient of the generator after the other.

  lemma By29(x: bv5)
    ensures Scale(x, Embed(29)) == Embed(W.Product(x, 29, 19, 15, 30, 21))
  {
  }

  lemma By22(x: bv5)
    ensures Scale(x, Embed(22)) == Embed(W.Product(x, 22, 5, 10, 20, 1))
  {
  }

  lemma By20(x: bv5)
    ensures Scale(x, Embed(20)) == Embed(W.Product(x, 20, 1, 2, 4, 8))
  {
  }

  lemma By21(x: bv5)
    ensures Scale(x, Embed(21)) == Embed(W.Product(x, 21, 3, 6, 12, 24))
  {
  }

  lemma By18(x: bv5)
    ensures Scale(x, Embed(18)) == Embed(W.Product(x, 18, 13, 26, 29, 19))
  {
  }

  lemma By1(x: bv5)
    ensures Scale(x, Embed(1)) == Embed(x) && Scale(x, Embed(0)) == Embed(0)
  {
  }

  lemma TimesAre(x: bv5)
    ensures W.Times(x) == C.Remainder(W.Product(x, 29, 19, 15, 30, 21), W.Product(x, 22, 5, 10, 20, 1),
                                      W.Product(x, 20, 1, 2, 4, 8),
                                      W.Product(x, 21, 3, 6, 12, 24), W.Product(x, 29, 19, 15, 30, 21),
                                      W.Product(x, 18, 13, 26, 29, 19))
  {
  }

  function Scaler(x: bv5): Elem -> Elem {
    R.Scaling(FIELD, DOUBLE, BitsOf(x))
  }

  ghost predicate Scales(x: bv5, k: bv5, p: bv5) {
    FIELD32.embed(p) == Scaler(x)(FIELD32.embed(k))
  }

  lemma ScalesTo(x: bv5, k: bv5, p: bv5)
    requires Scale(x, Embed(k)) == Embed(p)
    ensures Scales(x, k, p)
  {
    ScaleIs(x, Embed(k));
  }

  lemma MultipleOf(x: bv5, g: C.Remainder<bv5>, t: C.Remainder<bv5>)
    requires Scales(x, g.a, t.a) && Scales(x, g.b, t.b) && Scales(x, g.c, t.c)
    requires Scales(x, g.d, t.d) && Scales(x, g.e, t.e) && Scales(x, g.f, t.f)
    ensures S.Multiple(FIELD32, Scaler(x), g, t)
  {
  }

  lemma GeneratorScales(x: bv5)
    ensures Scales(x, 29, W.Product(x, 29, 19, 15, 30, 21)) && Scales(x, 22, W.Product(x, 22, 5, 10, 20, 1))
    ensures Scales(x, 20, W.Product(x, 20, 1, 2, 4, 8)) && Scales(x, 21, W.Product(x, 21, 3, 6, 12, 24))
    ensures Scales(x, 18, W.Product(x, 18, 13, 26, 29, 19))
  {
    By29(x);
    ScalesTo(x, 29, W.Product(x, 29, 19, 15, 30, 21));
    By22(x);
    ScalesTo(x, 22, W.Product(x, 22, 5, 10, 20, 1));
    By20(x);
    ScalesTo(x, 20, W.Product(x, 20, 1, 2, 4, 8));
    By21(x);
    ScalesTo(x, 21, W.Product(x, 21, 3, 6, 12, 24));
    By18(x);
    ScalesTo(x, 18, W.Product(x, 18, 13, 26, 29, 19));
  }

  /** A symbol times the generator is a multiple of it. */
  lemma GeneratorMultiple(x: bv5)
    ensures S.Multiple(FIELD32, Scaler(x), W.GEN1, W.CODE.times(x))
  {
    GeneratorScales(x);
    TimesAre(x);
    W.TimesIs(x);
    MultipleOf(x, W.GEN1, W.Times(x));
  }

  lemma LeadingMultiple(x: bv5)
    ensures S.Multiple(FIELD32, Scaler(x), LEADING, LEADING.(a := x))
  {
    By1(x);
    ScalesTo(x, 1, x);
    ScalesTo(x, 0, 0);
    MultipleOf(x, LEADING, LEADING.(a := x));
  }

  /** An element c, the m-th power of e, at which the generator vanishes. */
  lemma RootAtPower(m: nat, c: Elem)
    requires Is(m, c) && Vanishes(c)
    ensures S.Root(FIELD32, m)
  {
    FieldLinear();
    FieldDoubles();
    ValueAt(m, W.GEN1);
    ValueAt(m, LEADING);
    IterIs(m, Value(c, LEADING));
    forall x: bv5 ensures S.RootAt(FIELD32, m, x) {
      R.ScaledRespects(FIELD, DOUBLE, BitsOf(x));
      GeneratorMultiple(x);
      LeadingMultiple(x);
      S.RootFrom(FIELD32, Scaler(x), m, 1, W.GEN1, x);
    }
  }

  ghost predicate Vanishes(c: Elem) {
    Value(c, W.GEN1) == Times(c, Value(c, LEADING))
  }

  lemma FirstVanishes()
    ensures Vanishes(Elem(13, 29))
  {
  }

  lemma FirstRoot()
    ensures S.Root(FIELD32, FIRST)
  {
    LastPowers(1);
    FirstVanishes();
    RootAtPower(FIRST, Elem(13, 29));
  }

  lemma SecondVanishes()
    ensures Vanishes(Elem(3, 5))
  {
  }

  lemma SecondRoot()
    ensures S.Root(FIELD32, FIRST + 1)
  {
    LastPowers(1);
    SecondVanishes();
    RootAtPower(FIRST + 1, Elem(3, 5));
  }

  lemma ThirdVanishes()
    ensures Vanishes(Elem(30, 16))
  {
  }

  lemma ThirdRoot()
    ensures S.Root(FIELD32, FIRST + 2)
  {
    LastPowers(1);
    ThirdVanishes();
    RootAtPower(FIRST + 2, Elem(30, 16));
  }

  /** Two inputs that differ, but in at most three symbols within 1023, have different remainders. */
  lemma ThreeChanges(s: C.Remainder<bv5>, v: seq<bv5>, w: seq<bv5>, p: nat, q: nat, r: nat)
    requires p < q < r < |v| && r - p < 1023 && S.SameBut(v, w, p, q, r) && v != w
    ensures C.Run(W.CODE, s, v) != C.Run(W.CODE, s, w)
  {
    Field32Lawful();
    FirstRoot();
    SecondRoot();
    ThirdRoot();
    S.ThreeDetected(FIELD32, FIRST, s, v, w, p, q, r);
  }
}
