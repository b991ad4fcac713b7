/**
 * One way to write lists of numbers as bytes without a newline, such that different lists differ. It is no part of
 * DevMap; it shows that what the other modules assume of JSON can be met.
 */
module Encoding {
  import opened Prelude
  import JournalCodec

  type Fields = seq<seq<nat>>

  // ----- numbers -----

  /** Digits of base 127, each in one byte from 128 on, up to an end mark. */
  function Num(n: nat): (b: Bytes)
    ensures |b| > 0
  {
    if n == 0 then [255] else [(128 + n % 127) as byte] + Num(n / 127)
  }

  lemma {:induction false} NumPrefix(a: nat, b: nat, x: Bytes, y: Bytes)
    requires Num(a) + x == Num(b) + y
    ensures a == b && x == y
    decreases a
  {
    assert (Num(a) + x)[0] == (Num(b) + y)[0];
    if a == 0 {
      assert b == 0;
      assert x == (Num(a) + x)[1..] && y == (Num(b) + y)[1..];
    } else {
      assert b != 0;
      assert (Num(a) + x)[1..] == Num(a / 127) + x && (Num(b) + y)[1..] == Num(b / 127) + y;
      NumPrefix(a / 127, b / 127, x, y);
    }
  }

  function Power(k: nat): (p: nat)
    ensures p > 0
  {
    if k == 0 then 1 else 127 * Power(k - 1)
  }

  lemma {:induction false} NumLength(n: nat, k: nat)
    requires n < Power(k)
    ensures |Num(n)| <= k + 1
    decreases k
  {
    if n > 0 {
      NumLength(n / 127, k - 1);
    }
  }

  lemma {:induction false} NumHigh(n: nat, i: nat)
    requires i < |Num(n)|
    ensures Num(n)[i] >= 128
  {
    if i > 0 {
      NumHigh(n / 127, i - 1);
    }
  }

  // ----- lists of numbers -----

  function Pack(ns: seq<nat>): Bytes {
    if ns == [] then [] else Num(ns[0]) + Pack(ns[1..])
  }

  lemma {:induction false} PackInjective(a: seq<nat>, b: seq<nat>)
    requires Pack(a) == Pack(b)
    ensures a == b
  {
    if a != [] && b != [] {
      NumPrefix(a[0], b[0], Pack(a[1..]), Pack(b[1..]));
      PackInjective(a[1..], b[1..]);
      assert a == [a[0]] + a[1..] && b == [b[0]] + b[1..];
    }
  }

  lemma {:induction false} PackConcat(a: seq<nat>, b: seq<nat>)
    ensures Pack(a + b) == Pack(a) + Pack(b)
  {
    if a == [] {
      assert a + b == b;
    } else {
      assert (a + b)[1..] == a[1..] + b;
      PackConcat(a[1..], b);
    }
  }

  lemma {:induction false} PackLength(ns: seq<nat>, k: nat)
    requires forall i :: 0 <= i < |ns| ==> ns[i] < Power(k)
    ensures |ns| <= |Pack(ns)| <= |ns| * (k + 1)
  {
    if ns != [] {
      NumLength(ns[0], k);
      PackLength(ns[1..], k);
    }
  }

  lemma {:induction false} PackLonger(ns: seq<nat>)
    ensures |ns| <= |Pack(ns)|
  {
    if ns != [] {
      PackLonger(ns[1..]);
    }
  }

  lemma {:induction false} PackHigh(ns: seq<nat>)
    ensures JournalCodec.NoNewline(Pack(ns))
  {
    if ns != [] {
      PackHigh(ns[1..]);
      forall i | 0 <= i < |Num(ns[0])|
        ensures Num(ns[0])[i] >= 128
      {
        NumHigh(ns[0], i);
      }
    }
  }

  // ----- lists of fields -----

  function Flat(fs: Fields): seq<nat> {
    if fs == [] then [] else [|fs[0]|] + fs[0] + Flat(fs[1..])
  }

  lemma {:induction false} FlatInjective(a: Fields, b: Fields)
    requires Flat(a) == Flat(b)
    ensures a == b
  {
    if a != [] && b != [] {
      var n := |a[0]|;
      assert Flat(a)[0] == Flat(b)[0];
      assert a[0] == Flat(a)[1..n + 1] && b[0] == Flat(b)[1..n + 1];
      assert Flat(a[1..]) == Flat(a)[n + 1..] && Flat(b[1..]) == Flat(b)[n + 1..];
      FlatInjective(a[1..], b[1..]);
      assert a == [a[0]] + a[1..] && b == [b[0]] + b[1..];
    }
  }

  lemma {:induction false} FlatConcat(a: Fields, b: Fields)
    ensures Flat(a + b) == Flat(a) + Flat(b)
  {
    if a == [] {
      assert a + b == b;
    } else {
      assert (a + b)[1..] == a[1..] + b;
      FlatConcat(a[1..], b);
      Associate([|a[0]|] + a[0], Flat(a[1..]), Flat(b));
    }
  }

  function Join(fs: Fields): Bytes {
    Pack(Flat(fs))
  }

  lemma JoinInjective(a: Fields, b: Fields)
    requires Join(a) == Join(b)
    ensures a == b
  {
    PackInjective(Flat(a), Flat(b));
    FlatInjective(a, b);
  }

  lemma JoinConcat(a: Fields, b: Fields)
    ensures Join(a + b) == Join(a) + Join(b)
  {
    FlatConcat(a, b);
    PackConcat(Flat(a), Flat(b));
  }

  lemma JoinOne(f: seq<nat>, k: nat)
    requires |f| < Power(k) && forall i :: 0 <= i < |f| ==> f[i] < Power(k)
    ensures |Join([f])| <= (|f| + 1) * (k + 1)
  {
    assert Flat([f]) == [|f|] + f;
    PackLength([|f|] + f, k);
  }

  lemma {:induction false} JoinShort(fs: Fields)
    requires forall k :: 0 <= k < |fs| ==> |fs[k]| <= 1 && (fs[k] != [] ==> fs[k][0] < Power(3))
    ensures |Join(fs)| <= 8 * |fs|
  {
    if fs != [] {
      assert fs == [fs[0]] + fs[1..];
      JoinConcat([fs[0]], fs[1..]);
      assert Power(3) == 2_048_383;
      JoinOne(fs[0], 3);
      JoinShort(fs[1..]);
    }
  }

  lemma JoinLonger(fs: Fields, k: nat)
    requires k < |fs|
    ensures |Join(fs)| >= |fs[k]|
  {
    assert fs == fs[..k] + ([fs[k]] + fs[k + 1..]);
    JoinConcat(fs[..k], [fs[k]] + fs[k + 1..]);
    JoinConcat([fs[k]], fs[k + 1..]);
    assert Flat([fs[k]]) == [|fs[k]|] + fs[k];
    PackLonger([|fs[k]|] + fs[k]);
  }

  // ----- texts as fields -----

  function Text(s: string): (f: seq<nat>)
    ensures |f| == |s|
  {
    seq(|s|, i requires 0 <= i < |s| => s[i] as nat)
  }

  lemma TextInjective(a: string, b: string)
    requires Text(a) == Text(b)
    ensures a == b
  {
    forall i | 0 <= i < |a|
      ensures a[i] == b[i]
    {
      assert Text(a)[i] == Text(b)[i];
    }
  }

  lemma TextLength(s: string)
    requires |s| <= 100
    ensures |Join([Text(s)])| <= 4 * (|s| + 1) && |Join([Maybe(Some(s))])| <= 4 * (|s| + 2)
  {
    assert Power(3) == 2_048_383;
    JoinOne(Text(s), 3);
    JoinOne(Maybe(Some(s)), 3);
  }

  function Maybe(s: Option<string>): seq<nat> {
    if s.None? then [] else [0] + Text(s.value)
  }

  lemma MaybeInjective(a: Option<string>, b: Option<string>)
    requires Maybe(a) == Maybe(b)
    ensures a == b
  {
    if a.Some? {
      assert Text(a.value) == Maybe(a)[1..] && Text(b.value) == Maybe(b)[1..];
      TextInjective(a.value, b.value);
    }
  }
}
