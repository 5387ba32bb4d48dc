/**
 Feeding data into a shift register, whatever the register is made of: one step mixes a word in by
 exclusive or and divides.  Two laws are enough to tell short bursts of different data apart.
 */
module Registers {
  /** up moves a word one place up; low says that nothing is lost by it. */
  datatype Ops<!T> = Ops(xor: (T, T) -> T, divide: T -> T, up: T -> T, low: T -> bool)

  /** A word mixed in one place up comes out, one division later, in its own place. */
  ghost predicate AbsorbsAt<T(!new)>(o: Ops<T>, y: T, w: T) {
    o.low(w) ==> o.divide(o.xor(y, o.up(w))) == o.xor(o.divide(y), w)
  }

  ghost predicate InjectiveAt<T(!new)>(o: Ops<T>, x: T, y: T) { o.divide(x) == o.divide(y) ==> x == y }
  ghost predicate CancelsAt<T(!new)>(o: Ops<T>, x: T, y: T, w: T) { o.xor(x, w) == o.xor(y, w) ==> x == y }

  ghost predicate Absorbs<T(!new)>(o: Ops<T>) { forall y, w :: AbsorbsAt(o, y, w) }
  ghost predicate Injective<T(!new)>(o: Ops<T>) { forall x, y :: InjectiveAt(o, x, y) }
  ghost predicate Cancels<T(!new)>(o: Ops<T>) { forall x, y, w :: CancelsAt(o, x, y, w) }

  ghost predicate Laws<T(!new)>(o: Ops<T>) { Absorbs(o) && Injective(o) && Cancels(o) }

  function Run<T>(o: Ops<T>, c: T, ws: seq<T>): T {
    if ws == [] then c else o.divide(o.xor(Run(o, c, ws[..|ws| - 1]), ws[|ws| - 1]))
  }

  /** Equal data never merges two different registers. */
  lemma {:induction false} RunInjective<T(!new)>(o: Ops<T>, c: T, d: T, ws: seq<T>)
    requires Laws(o) && Run(o, c, ws) == Run(o, d, ws)
    ensures c == d
  {
    if ws != [] {
      var n := |ws| - 1;
      var p, q := Run(o, c, ws[..n]), Run(o, d, ws[..n]);
      assert InjectiveAt(o, o.xor(p, ws[n]), o.xor(q, ws[n])) && CancelsAt(o, p, q, ws[n]);
      RunInjective(o, c, d, ws[..n]);
    }
  }

  /** Four words in a row are one mixed word, divided four times. */
  function Mixed<T>(o: Ops<T>, c: T, w0: T, w1: T, w2: T, w3: T): T {
    o.xor(o.xor(o.xor(o.xor(c, w0), o.up(w1)), o.up(o.up(w2))), o.up(o.up(o.up(w3))))
  }

  function Four<T>(o: Ops<T>, c: T): T { o.divide(o.divide(o.divide(o.divide(c)))) }

  lemma RunFour<T(!new)>(o: Ops<T>, c: T, w0: T, w1: T, w2: T, w3: T)
    requires Laws(o)
    requires o.low(w1) && o.low(w2) && o.low(o.up(w2)) && o.low(w3) && o.low(o.up(w3)) && o.low(o.up(o.up(w3)))
    ensures Run(o, c, [w0, w1, w2, w3]) == Four(o, Mixed(o, c, w0, w1, w2, w3))
  {
    RunFourIs(o, c, w0, w1, w2, w3);
    var y0 := o.xor(c, w0);
    var y1 := o.xor(y0, o.up(w1));
    var y2 := o.xor(y1, o.up(o.up(w2)));
    assert AbsorbsAt(o, y0, w1);
    assert AbsorbsAt(o, o.divide(y1), w2) && AbsorbsAt(o, y1, o.up(w2));
    assert AbsorbsAt(o, o.divide(o.divide(y2)), w3) && AbsorbsAt(o, o.divide(y2), o.up(w3));
    assert AbsorbsAt(o, y2, o.up(o.up(w3)));
  }

  lemma RunFourIs<T>(o: Ops<T>, c: T, w0: T, w1: T, w2: T, w3: T)
    ensures Run(o, c, [w0, w1, w2, w3]) ==
            o.divide(o.xor(o.divide(o.xor(o.divide(o.xor(o.divide(o.xor(c, w0)), w1)), w2)), w3))
  {
    var s := [w0, w1, w2, w3];
    assert s[..3] == [w0, w1, w2] && [w0, w1, w2][..2] == [w0, w1] && [w0, w1][..1] == [w0] && [w0][..0] == [];
    assert Run(o, c, [w0]) == o.divide(o.xor(c, w0));
    assert Run(o, c, [w0, w1]) == o.divide(o.xor(Run(o, c, [w0]), w1));
    assert Run(o, c, [w0, w1, w2]) == o.divide(o.xor(Run(o, c, [w0, w1]), w2));
  }

  lemma FourInjective<T(!new)>(o: Ops<T>, x: T, y: T)
    requires Laws(o) && Four(o, x) == Four(o, y)
    ensures x == y
  {
    var d := o.divide;
    assert InjectiveAt(o, d(d(d(x))), d(d(d(y)))) && InjectiveAt(o, d(d(x)), d(d(y)));
    assert InjectiveAt(o, d(x), d(y)) && InjectiveAt(o, x, y);
  }

  /** Eight divisions, and eight places up, keep the first law. */
  function Div8<T>(o: Ops<T>, c: T): T { Four(o, Four(o, c)) }
  function Up4<T>(o: Ops<T>, w: T): T { o.up(o.up(o.up(o.up(w)))) }

  lemma AbsorbsFour<T(!new)>(o: Ops<T>, y: T, w: T)
    requires Absorbs(o)
    requires o.low(w) && o.low(o.up(w)) && o.low(o.up(o.up(w))) && o.low(o.up(o.up(o.up(w))))
    ensures Four(o, o.xor(y, Up4(o, w))) == o.xor(Four(o, y), w)
  {
    var d := o.divide;
    assert AbsorbsAt(o, y, o.up(o.up(o.up(w)))) && AbsorbsAt(o, d(y), o.up(o.up(w)));
    assert AbsorbsAt(o, d(d(y)), o.up(w)) && AbsorbsAt(o, d(d(d(y))), w);
  }

  /** The lows that four places up need. */
  predicate Low4<T>(o: Ops<T>, w: T) {
    o.low(w) && o.low(o.up(w)) && o.low(o.up(o.up(w))) && o.low(o.up(o.up(o.up(w))))
  }

  /** b does at once what o does in eight divisions. */
  ghost predicate EightAt<T(!new)>(o: Ops<T>, b: Ops<T>, w: T) {
    && b.divide(w) == Div8(o, w) && b.up(w) == Up4(o, Up4(o, w))
    && (b.low(w) ==> Low4(o, w) && Low4(o, Up4(o, w)))
  }

  ghost predicate XorAt<T(!new)>(o: Ops<T>, b: Ops<T>, x: T, y: T) { b.xor(x, y) == o.xor(x, y) }

  ghost predicate Eight<T(!new)>(o: Ops<T>, b: Ops<T>) {
    (forall w :: EightAt(o, b, w)) && (forall x, y :: XorAt(o, b, x, y))
  }

  lemma EightAbsorbs<T(!new)>(o: Ops<T>, b: Ops<T>, y: T, w: T)
    requires Absorbs(o) && Eight(o, b)
    ensures AbsorbsAt(b, y, w)
  {
    if b.low(w) {
      var v := Up4(o, w);
      assert EightAt(o, b, w) && EightAt(o, b, y) && EightAt(o, b, b.xor(y, b.up(w)));
      assert XorAt(o, b, y, b.up(w)) && XorAt(o, b, b.divide(y), w);
      AbsorbsFour(o, y, v);
      AbsorbsFour(o, Four(o, y), w);
    }
  }

  lemma EightInjective<T(!new)>(o: Ops<T>, b: Ops<T>, x: T, y: T)
    requires Laws(o) && Eight(o, b)
    ensures InjectiveAt(b, x, y)
  {
    assert EightAt(o, b, x) && EightAt(o, b, y);
    if b.divide(x) == b.divide(y) {
      FourInjective(o, Four(o, x), Four(o, y));
      FourInjective(o, x, y);
    }
  }

  lemma EightCancels<T(!new)>(o: Ops<T>, b: Ops<T>, x: T, y: T, w: T)
    requires Laws(o) && Eight(o, b)
    ensures CancelsAt(b, x, y, w)
  {
    assert XorAt(o, b, x, w) && XorAt(o, b, y, w) && CancelsAt(o, x, y, w);
  }

  lemma EightLaws<T(!new)>(o: Ops<T>, b: Ops<T>)
    requires Laws(o) && Eight(o, b)
    ensures Laws(b)
  {
    forall y, w ensures AbsorbsAt(b, y, w) { EightAbsorbs(o, b, y, w); }
    forall x, y ensures InjectiveAt(b, x, y) { EightInjective(o, b, x, y); }
    forall x, y, w ensures CancelsAt(b, x, y, w) { EightCancels(o, b, x, y, w); }
  }

  /** A table of what dividing a low word gives, used on the low part of a register. */
  lemma TableDivides<T(!new)>(o: Ops<T>, table: T -> T, x: T, lo: T, hi: T)
    requires Laws(o) && x == o.xor(lo, o.up(hi)) && o.low(hi) && table(lo) == o.divide(lo)
    ensures o.xor(table(lo), hi) == o.divide(x)
  {
    assert AbsorbsAt(o, lo, hi);
  }
}
