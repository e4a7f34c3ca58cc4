/** Machine integers, options, ordered iteration and little-endian numbers, shared by every
    other module. */
module Common {

  // The unsigned and signed machine widths the program uses.
  type u8 = x: int | 0 <= x < 0x100
  type u16 = x: int | 0 <= x < 0x1_0000
  type u32 = x: int | 0 <= x < 0x1_0000_0000
  type u64 = x: int | 0 <= x < 0x1_0000_0000_0000_0000
  type i8 = x: int | -0x80 <= x < 0x80

  const U32_RANGE: int := 0x1_0000_0000
  const U64_RANGE: int := 0x1_0000_0000_0000_0000

  // A node identifier is a 32-bit number; times are milliseconds on a 64-bit clock.
  type NodeId = u32

  datatype Option<+T> = None | Some(value: T)
  {
    function GetOr(default: T): (r: T) {
      if Some? then value else default
    }
  }

  // Subtraction that stops at zero.
  function SaturatingSub(a: u64, b: u64): (r: u64) {
    if a < b then 0 else a - b
  }

  function WrappingInc32(x: u32): (r: u32) {
    (x + 1) % U32_RANGE
  }

  // ---------- Ordered iteration over the keys of an ordered map ----------

  lemma {:induction false} FindLeast(s: set<NodeId>) returns (m: NodeId)
    requires s != {}
    ensures m in s && forall x :: x in s ==> m <= x
  {
    var k :| k in s;
    var rest := s - {k};
    if rest == {} {
      m := k;
      assert s == {k};
    } else {
      var r := FindLeast(rest);
      m := if r < k then r else k;
      assert s == rest + {k};
    }
  }

  lemma LeastExists(s: set<NodeId>)
    requires s != {}
    ensures exists m :: m in s && forall x :: x in s ==> m <= x
  {
    var m := FindLeast(s);
  }

  ghost predicate IsLeast(s: set<NodeId>, m: NodeId) {
    m in s && forall x :: x in s ==> m <= x
  }

  function Least(s: set<NodeId>): (m: NodeId)
    requires s != {}
    ensures IsLeast(s, m)
  {
    LeastExists(s);
    var m :| m in s && forall x :: x in s ==> m <= x;
    m
  }

  predicate Increasing(ks: seq<NodeId>) {
    forall i, j :: 0 <= i < j < |ks| ==> ks[i] < ks[j]
  }

  function Elements(ks: seq<NodeId>): (r: set<NodeId>) {
    set x | x in ks
  }

  // The elements of a set in ascending order: the iteration order of a B-tree map.
  function Ascending(s: set<NodeId>): (r: seq<NodeId>) {
    if s == {} then [] else [Least(s)] + Ascending(s - {Least(s)})
  }

  lemma {:induction false} AscendingListing(s: set<NodeId>)
    ensures |Ascending(s)| == |s| && Increasing(Ascending(s)) && Elements(Ascending(s)) == s
  {
    if s != {} {
      var m := Least(s);
      var others := s - {m};
      assert |others| == |s| - 1 && {m} + others == s;
      AscendingListing(others);
      Prepend(m, Ascending(others));
    }
  }

  lemma Prepend(m: NodeId, rest: seq<NodeId>)
    requires Increasing(rest) && forall x :: x in Elements(rest) ==> m < x
    ensures Increasing([m] + rest) && Elements([m] + rest) == {m} + Elements(rest)
  {
    forall i | 0 <= i < |rest| ensures m < rest[i] {
      assert rest[i] in Elements(rest);
    }
    ElementsOfPrepend(m, rest);
  }

  lemma ElementsOfPrepend(m: NodeId, rest: seq<NodeId>)
    ensures Elements([m] + rest) == {m} + Elements(rest)
  {
  }

  // Walking a set from its least element up: take the least of what is left.
  lemma AscendingNext(wanted: set<NodeId>, left: set<NodeId>)
    requires left != {}
    ensures Ascending(wanted * left)
         == (if Least(left) in wanted then [Least(left)] else []) + Ascending(wanted * (left - {Least(left)}))
  {
    var id := Least(left);
    if id in wanted {
      assert IsLeast(wanted * left, id);
      assert wanted * left - {id} == wanted * (left - {id});
    } else {
      assert wanted * left == wanted * (left - {id});
    }
  }

  // Collecting the wanted elements on such a walk lists them in order.
  lemma CollectNext(got: seq<NodeId>, wanted: set<NodeId>, left: set<NodeId>)
    requires left != {} && got + Ascending(wanted * left) == Ascending(wanted)
    ensures var got' := if Least(left) in wanted then got + [Least(left)] else got;
      got' + Ascending(wanted * (left - {Least(left)})) == Ascending(wanted)
  {
    AscendingNext(wanted, left);
    var rest := Ascending(wanted * (left - {Least(left)}));
    Associative(got, [Least(left)], rest);
    assert [] + rest == rest;
  }

  lemma Associative<T>(a: seq<T>, b: seq<T>, c: seq<T>)
    ensures (a + b) + c == a + (b + c)
  {
  }

  lemma SliceOfSlice<T>(s: seq<T>, a: nat, b: nat, i: nat, j: nat)
    requires a <= b <= |s| && i <= j <= b - a
    ensures s[a..b][i..j] == s[a + i..a + j]
  {
    var l, r := s[a..b][i..j], s[a + i..a + j];
    assert |l| == |r|;
    forall k | 0 <= k < |l| ensures l[k] == r[k] {
      assert l[k] == s[a..b][i + k];
    }
  }

  lemma SubtractTwice<K, V>(m: map<K, V>, a: set<K>, b: set<K>)
    ensures (m - a) - b == m - (a + b)
  {
  }

  // Remove the listed keys one after the other.
  method RemoveAll<V>(m: map<NodeId, V>, ids: seq<NodeId>) returns (r: map<NodeId, V>)
    ensures r == m - Elements(ids)
  {
    r := m;
    for n := 0 to |ids|
      invariant r == m - Elements(ids[..n])
    {
      assert ids[..n + 1] == ids[..n] + [ids[n]];
      assert Elements(ids[..n + 1]) == Elements(ids[..n]) + {ids[n]};
      r := r - {ids[n]};
    }
    assert ids[..|ids|] == ids;
  }

  // There are at most 2^32 node identifiers.
  lemma {:induction false} FewerThan(s: set<NodeId>, n: nat)
    requires forall x :: x in s ==> x < n
    ensures |s| <= n
  {
    if n == 0 {
      assert s == {};
    } else {
      var last: int := n - 1;
      if last in s {
        FewerThan(s - {last}, n - 1);
      } else {
        FewerThan(s, n - 1);
      }
    }
  }

  ghost predicate NoDuplicates<T>(s: seq<T>) {
    forall i, j :: 0 <= i < j < |s| ==> s[i] != s[j]
  }

  // Inserting one more element at position k.
  lemma InsertDistinct<T>(s: seq<T>, k: nat, x: T)
    requires k <= |s| && NoDuplicates(s) && x !in s
    ensures NoDuplicates(s[..k] + [x] + s[k..])
  {
  }

  lemma InsertElements<T>(s: seq<T>, k: nat, x: T)
    requires k <= |s|
    ensures forall y :: y in s[..k] + [x] + s[k..] <==> y in s || y == x
  {
    assert s == s[..k] + s[k..];
  }

  // ---------- Little-endian numbers ----------

  function Pow256(n: nat): (p: nat)
    ensures p >= 1
  {
    if n == 0 then 1 else 256 * Pow256(n - 1)
  }

  // The low n bytes of x, least significant first.
  function LittleEndian(x: nat, n: nat): (bytes: seq<u8>)
    ensures |bytes| == n
    decreases n, x
  {
    if n == 0 then [] else [x % 256] + LittleEndian(x / 256, n - 1)
  }

  function FromLittleEndian(bytes: seq<u8>): (x: nat)
    ensures x < Pow256(|bytes|)
  {
    if bytes == [] then 0 else bytes[0] + 256 * FromLittleEndian(bytes[1..])
  }

  // Reading back the written bytes keeps exactly what fits in them.
  lemma {:induction false} ReadWritten(x: nat, n: nat)
    ensures FromLittleEndian(LittleEndian(x, n)) == x % Pow256(n)
  {
    if n != 0 {
      ReadWritten(x / 256, n - 1);
      assert LittleEndian(x, n)[1..] == LittleEndian(x / 256, n - 1);
      ModuloStep(x, Pow256(n - 1));
    }
  }

  // Different numbers that fit are written differently.
  lemma WrittenDiffers(x: nat, y: nat, n: nat)
    requires x < Pow256(n) && y < Pow256(n)
    ensures LittleEndian(x, n) == LittleEndian(y, n) ==> x == y
  {
    ReadWritten(x, n);
    ReadWritten(y, n);
    SmallModulo(x, Pow256(n));
    SmallModulo(y, Pow256(n));
  }

  lemma SmallModulo(x: nat, m: nat)
    requires x < m
    ensures x % m == x
  {
  }

  lemma ModuloStep(x: nat, m: nat)
    requires m > 0
    ensures x % 256 + 256 * ((x / 256) % m) == x % (256 * m)
  {
    var q, r := (x / 256) / m, (x / 256) % m;
    assert x == 256 * (q * m + r) + x % 256;
    assert x == (256 * m) * q + (256 * r + x % 256);
    assert 0 <= 256 * r + x % 256 < 256 * m;
    DivisionUnique(x, 256 * m, q, 256 * r + x % 256);
  }

  lemma DivisionUnique(x: int, d: int, q: int, r: int)
    requires d > 0 && 0 <= r < d && x == d * q + r
    ensures x % d == r && x / d == q
  {
    var e := x / d - q;
    assert x % d == x - d * (x / d);
    assert d * e == r - x % d;
    MultipleOf(d, e);
  }

  lemma MultipleOf(d: int, e: int)
    requires d > 0
    ensures e >= 1 ==> d * e >= d
    ensures e <= -1 ==> d * e <= -d
  {
  }

  lemma Pow256Values()
    ensures Pow256(1) == 0x100
    ensures Pow256(2) == 0x1_0000
    ensures Pow256(4) == U32_RANGE
    ensures Pow256(8) == U64_RANGE
  {
    assert Pow256(3) == 0x100_0000;
    assert Pow256(5) == 0x100_0000_0000;
    assert Pow256(6) == 0x1_0000_0000_0000;
    assert Pow256(7) == 0x100_0000_0000_0000;
  }

  // Writing the bytes just read gives them back.
  lemma {:induction false} WriteRead(bytes: seq<u8>)
    ensures LittleEndian(FromLittleEndian(bytes), |bytes|) == bytes
  {
    if bytes != [] {
      WriteRead(bytes[1..]);
      var rest := FromLittleEndian(bytes[1..]);
      assert (bytes[0] + 256 * rest) / 256 == rest && (bytes[0] + 256 * rest) % 256 == bytes[0];
    }
  }

  // ---------- Fixed-width readers ----------

  function ReadU16(data: seq<u8>, at: nat): (x: u16)
    requires at + 2 <= |data|
  {
    Pow256Values();
    FromLittleEndian(data[at..at + 2])
  }

  function ReadU32(data: seq<u8>, at: nat): (x: u32)
    requires at + 4 <= |data|
  {
    Pow256Values();
    FromLittleEndian(data[at..at + 4])
  }

  function ReadU64(data: seq<u8>, at: nat): (x: u64)
    requires at + 8 <= |data|
  {
    Pow256Values();
    FromLittleEndian(data[at..at + 8])
  }

  lemma WriteRead32(data: seq<u8>, at: nat)
    requires at + 4 <= |data|
    ensures LittleEndian(ReadU32(data, at), 4) == data[at..at + 4]
  {
    WriteRead(data[at..at + 4]);
  }

  lemma ReadsBack16(data: seq<u8>, at: nat, x: u16)
    requires at + 2 <= |data| && data[at..at + 2] == LittleEndian(x, 2)
    ensures ReadU16(data, at) == x
  {
    ReadWritten(x, 2);
    Pow256Values();
    SmallModulo(x, 0x1_0000);
  }

  lemma ReadsBack32(data: seq<u8>, at: nat, x: u32)
    requires at + 4 <= |data| && data[at..at + 4] == LittleEndian(x, 4)
    ensures ReadU32(data, at) == x
  {
    ReadWritten(x, 4);
    Pow256Values();
    SmallModulo(x, U32_RANGE);
  }

  lemma ReadsBack64(data: seq<u8>, at: nat, x: u64)
    requires at + 8 <= |data| && data[at..at + 8] == LittleEndian(x, 8)
    ensures ReadU64(data, at) == x
  {
    ReadWritten(x, 8);
    Pow256Values();
    SmallModulo(x, U64_RANGE);
  }
}
