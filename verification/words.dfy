// Machine words, byte strings and the big-endian layout shared by both mux implementations.
module Words {

  type byte = x: int | 0 <= x < 0x100
  type u16 = x: int | 0 <= x < 0x1_0000
  type u32 = x: int | 0 <= x < 0x1_0000_0000

  type Bytes = seq<byte>

  datatype Option<+T> = None | Some(value: T)

  /** 32-bit wrap-around: `& 0xFFFFFFFF` on a Python int, `wrapping_add`/`wrapping_sub` in Rust. */
  function Wrap32(x: int): u32 {
    x % 0x1_0000_0000
  }

  lemma WrapAdd(x: int, y: int)
    ensures Wrap32(Wrap32(x) as int + y) == Wrap32(x + y)
  {
  }

  function Wrap16(x: int): u16 {
    x % 0x1_0000
  }

  function Be16(n: u16): (b: Bytes)
    ensures |b| == 2
  {
    [n / 0x100, n % 0x100]
  }

  function Be32(n: u32): (b: Bytes)
    ensures |b| == 4
  {
    Be16(n / 0x1_0000) + Be16(n % 0x1_0000)
  }

  function FromBe16(b: Bytes): (n: u16)
    requires |b| == 2
  {
    b[0] as int * 0x100 + b[1] as int
  }

  function FromBe32(b: Bytes): (n: u32)
    requires |b| == 4
  {
    (b[0] as int * 0x100 + b[1]) * 0x1_0000 + (b[2] as int * 0x100 + b[3])
  }

  lemma Be16RoundTrip(n: u16, b: Bytes)
    requires |b| == 2
    ensures FromBe16(Be16(n)) == n
    ensures Be16(FromBe16(b)) == b
  {
    assert Be16(FromBe16(b))[0] == b[0];
    assert Be16(FromBe16(b))[1] == b[1];
  }

  lemma Be32RoundTrip(n: u32, b: Bytes)
    requires |b| == 4
    ensures FromBe32(Be32(n)) == n
    ensures Be32(FromBe32(b)) == b
  {
    Be16RoundTrip(n / 0x1_0000, b[..2]);
    Be16RoundTrip(n % 0x1_0000, b[2..]);
    assert Be32(n)[..2] == Be16(n / 0x1_0000) && Be32(n)[2..] == Be16(n % 0x1_0000);
    assert b == b[..2] + b[2..];
  }

  /** The byte stream carried by a list of pieces. */
  function Concat(parts: seq<Bytes>): Bytes {
    if parts == [] then [] else parts[0] + Concat(parts[1..])
  }

  lemma Uncons<T>(s: seq<T>, t: seq<T>)
    requires s != []
    ensures s + t == [s[0]] + (s[1..] + t)
    ensures (s + t)[1..] == s[1..] + t
  {
  }

  lemma SplitAt<T>(s: seq<T>, n: nat)
    requires n <= |s|
    ensures s[..n] + s[n..] == s
  {
  }

  lemma SubsetSize<T>(a: set<T>, b: set<T>)
    requires a <= b
    ensures |a| <= |b|
  {
    assert b == a + (b - a);
  }

  lemma Assoc<T>(a: seq<T>, b: seq<T>, c: seq<T>)
    ensures a + b + c == a + (b + c)
  {
  }

  lemma Assoc4<T>(a: seq<T>, b: seq<T>, c: seq<T>, d: seq<T>)
    ensures a + ((b + c) + d) == (a + b) + (c + d)
  {
  }

  lemma {:induction false} ConcatAppend(a: seq<Bytes>, b: seq<Bytes>)
    ensures Concat(a + b) == Concat(a) + Concat(b)
  {
    if a == [] {
      assert a + b == b;
    } else {
      Uncons(a, b);
      ConcatAppend(a[1..], b);
      Assoc(a[0], Concat(a[1..]), Concat(b));
    }
  }


  lemma ConcatCons(x: Bytes, a: seq<Bytes>)
    ensures Concat([x] + a) == x + Concat(a)
  {
    assert ([x] + a)[1..] == a;
  }

  lemma ConcatSnoc(a: seq<Bytes>, x: Bytes)
    ensures Concat(a + [x]) == Concat(a) + x
  {
    ConcatAppend(a, [x]);
    assert Concat([x]) == x;
  }
}
