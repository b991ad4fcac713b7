/** Result types and the few facts about sequences that several modules share. */
module Prelude {

  datatype Option<+T> = None | Some(value: T)

  datatype Result<+T, +E> = Ok(value: T) | Err(error: E)

  newtype byte = x: int | 0 <= x < 256

  type Bytes = seq<byte>

  ghost predicate Distinct<T>(s: seq<T>) {
    forall i, j :: 0 <= i < j < |s| ==> s[i] != s[j]
  }

  ghost function Elements<T>(s: seq<T>): set<T> {
    set x | x in s
  }

  lemma Associate<T>(a: seq<T>, b: seq<T>, c: seq<T>)
    ensures a + b + c == a + (b + c)
  {
  }

  lemma TakeMore<T>(s: seq<T>, i: nat)
    requires i < |s|
    ensures s[..i + 1] == s[..i] + [s[i]]
  {
  }

  lemma DropOne<T>(s: seq<T>, i: nat)
    requires i < |s|
    ensures s[i..] == [s[i]] + s[i + 1..]
    ensures i + 1 == |s| ==> s[i..] == [s[i]] + []
  {
  }

  lemma LastIsNew<T>(s: seq<T>)
    requires Distinct(s) && s != []
    ensures Distinct(s[..|s| - 1]) && s[|s| - 1] !in s[..|s| - 1]
    ensures forall x :: x in s <==> x in s[..|s| - 1] || x == s[|s| - 1]
  {
    assert s == s[..|s| - 1] + [s[|s| - 1]];
  }

  lemma OnlyElement<T>(s: seq<T>, x: T)
    requires |s| == 1 && x in s
    ensures x == s[0]
  {
  }

  function Min(a: nat, b: nat): nat {
    if a <= b then a else b
  }

  /** Sequences without repetition that have the same elements are permutations of each other. */
  lemma SameElements<T>(s: seq<T>, t: seq<T>)
    requires Distinct(s) && Distinct(t) && forall x :: x in s <==> x in t
    ensures multiset(s) == multiset(t)
  {
    forall x: T
      ensures multiset(s)[x] == multiset(t)[x]
    {
      CountDistinct(s, x);
      CountDistinct(t, x);
    }
  }

  lemma {:induction false} CountDistinct<T>(s: seq<T>, x: T)
    requires Distinct(s)
    ensures multiset(s)[x] == if x in s then 1 else 0
    decreases |s|
  {
    if s != [] {
      var n := |s| - 1;
      CountDistinct(s[..n], x);
      assert s == s[..n] + [s[n]];
      assert s[n] !in s[..n];
    }
  }

  lemma {:induction false} DistinctSize<T>(s: seq<T>)
    requires Distinct(s)
    ensures |Elements(s)| == |s|
    decreases |s|
  {
    if s != [] {
      var n := |s| - 1;
      DistinctSize(s[..n]);
      assert s == s[..n] + [s[n]];
      assert Elements(s) == Elements(s[..n]) + {s[n]};
    }
  }

  lemma {:induction false} ElementsFew<T>(s: seq<T>)
    ensures |Elements(s)| <= |s|
    decreases |s|
  {
    if s != [] {
      var n := |s| - 1;
      ElementsFew(s[..n]);
      assert s == s[..n] + [s[n]];
      assert Elements(s) == Elements(s[..n]) + {s[n]};
    }
  }

  lemma JoinDistinct<T>(s: seq<T>, t: seq<T>)
    requires Distinct(s) && Distinct(t) && forall x :: x in t ==> x !in s
    ensures Distinct(s + t)
  {
    forall i, j | 0 <= i < j < |s + t|
      ensures (s + t)[i] != (s + t)[j]
    {
      if i < |s| <= j {
        assert t[j - |s|] in t && s[i] in s;
      }
    }
  }

  ghost predicate NoColon(s: string) {
    ':' !in s
  }

  lemma FirstColon(a: string, b: string)
    requires NoColon(a)
    ensures |a + ":" + b| > |a| && (a + ":" + b)[|a|] == ':'
    ensures forall i :: 0 <= i < |a| ==> (a + ":" + b)[i] != ':'
  {
    forall i | 0 <= i < |a|
      ensures (a + ":" + b)[i] != ':'
    {
      assert (a + ":" + b)[i] == a[i] && a[i] in a;
    }
  }

  /** The first colon tells two joined parts apart. */
  lemma ColonJoinInjective(a: string, b: string, c: string, d: string)
    requires NoColon(a) && NoColon(c) && a + ":" + b == c + ":" + d
    ensures a == c && b == d
  {
    FirstColon(a, b);
    FirstColon(c, d);
    assert |a| == |c|;
    assert a == (a + ":" + b)[..|a|] && c == (c + ":" + d)[..|c|];
    assert b == (a + ":" + b)[|a| + 1..] && d == (c + ":" + d)[|c| + 1..];
  }

  // ----- hexadecimal texts -----

  predicate AllHex(s: string) {
    forall i :: 0 <= i < |s| ==> '0' <= s[i] <= '9' || 'a' <= s[i] <= 'f'
  }

  lemma HexHasNoColon(s: string)
    requires AllHex(s)
    ensures NoColon(s)
  {
  }

  function Digit(n: nat): char
    requires n < 16
  {
    if n < 10 then (0x30 + n) as char else (0x57 + n) as char
  }

  function Hex(n: nat, length: nat): (t: string)
    ensures |t| == length && AllHex(t)
  {
    if length == 0 then "" else Hex(n / 16, length - 1) + [Digit(n % 16)]
  }

  function Sixteen(k: nat): nat {
    if k == 0 then 1 else 16 * Sixteen(k - 1)
  }

  lemma {:induction false} Grows(k: nat, m: nat)
    requires k <= m
    ensures Sixteen(k) <= Sixteen(m)
    decreases m
  {
    if k < m {
      Grows(k, m - 1);
    }
  }

  lemma {:induction false} HexInjective(m: nat, n: nat, length: nat)
    requires m < Sixteen(length) && n < Sixteen(length) && Hex(m, length) == Hex(n, length)
    ensures m == n
    decreases length
  {
    if length > 0 {
      var a, b := Hex(m, length), Hex(n, length);
      assert a[length - 1] == Digit(m % 16) && b[length - 1] == Digit(n % 16);
      assert Hex(m / 16, length - 1) == a[..length - 1] && Hex(n / 16, length - 1) == b[..length - 1];
      HexInjective(m / 16, n / 16, length - 1);
    }
  }

  /** Four digits are enough to tell this many numbers apart. */
  lemma HexDiffer(m: nat, n: nat, length: nat)
    requires m < 65536 && n < 65536 && m != n && 4 <= length
    ensures Hex(m, length) != Hex(n, length)
  {
    assert Sixteen(4) == 65536;
    Grows(4, length);
    if Hex(m, length) == Hex(n, length) {
      HexInjective(m, n, length);
    }
  }

  /** Strings hold the bytes of their UTF-8 form; a cut may not fall before a continuation byte. */
  predicate CharBoundary(s: string, i: nat) {
    i == 0 || i == |s| || (i < |s| && !(0x80 <= s[i] as int < 0xC0))
  }
}
