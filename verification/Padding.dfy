/** How many padding bytes an auth_chain_a or auth_chain_b frame carries, and where in them the
    payload starts (common/ssr/authchain.go). */
module Padding {
  import opened Octets
  import opened XorShift

  predicate Sorted(s: seq<nat>) {
    forall i, j :: 0 <= i < j < |s| ==> s[i] <= s[j]
  }

  /** A chain_b data-size list as the frame codec needs it. */
  predicate SizeList(s: seq<nat>) {
    |s| > 0 && Sorted(s) && forall i :: 0 <= i < |s| ==> s[i] < 1440
  }

  datatype Sizes = ChainA | ChainB(dsl: seq<nat>, dsl2: seq<nat>)

  predicate WellFormed(z: Sizes) {
    z.ChainB? ==> SizeList(z.dsl) && SizeList(z.dsl2)
  }

  type Scheme = z: Sizes | WellFormed(z) witness ChainA

  // ---- newAuthChain: the two lists derived from the node key ----

  function Insert(x: nat, s: seq<nat>): seq<nat> {
    if s == [] || x <= s[0] then [x] + s else [s[0]] + Insert(x, s[1..])
  }

  /** What `sort.Ints` leaves: the elements in ascending order. */
  function Sort(s: seq<nat>): seq<nat> {
    if s == [] then [] else Insert(s[0], Sort(s[1..]))
  }

  lemma {:induction false} InsertPermutes(x: nat, s: seq<nat>)
    ensures multiset(Insert(x, s)) == multiset([x] + s)
  {
    if s != [] && x > s[0] {
      InsertPermutes(x, s[1..]);
      assert [x] + s == [x] + ([s[0]] + s[1..]);
    }
  }

  lemma {:induction false} InsertSorted(x: nat, s: seq<nat>)
    requires Sorted(s)
    ensures Sorted(Insert(x, s))
  {
    if s != [] && x > s[0] {
      InsertSorted(x, s[1..]);
      InsertAbove(x, s[1..], s[0]);
    }
  }

  lemma {:induction false} InsertAbove(x: nat, s: seq<nat>, m: nat)
    requires m <= x && forall i :: 0 <= i < |s| ==> m <= s[i]
    ensures forall i :: 0 <= i < |Insert(x, s)| ==> m <= Insert(x, s)[i]
  {
    if s != [] && x > s[0] { InsertAbove(x, s[1..], m); }
  }

  lemma {:induction false} SortSorts(s: seq<nat>)
    ensures Sorted(Sort(s)) && multiset(Sort(s)) == multiset(s) && |Sort(s)| == |s|
  {
    if s != [] {
      SortSorts(s[1..]);
      InsertSorted(s[0], Sort(s[1..]));
      InsertPermutes(s[0], Sort(s[1..]));
      assert s == [s[0]] + s[1..];
      assert |multiset(Sort(s))| == |multiset(s)|;
    }
  }

  /** `n` list entries drawn in turn, and the generator afterwards. */
  function DrawSizes(r: Prng, n: nat): (q: (seq<nat>, Prng))
    ensures |q.0| == n && forall i :: 0 <= i < n ==> q.0[i] < 1440
    decreases n
  {
    if n == 0 then ([], r) else
      var (r1, x) := Draw(r);
      var (rest, r2) := DrawSizes(r1, n - 1);
      ([x % 2340 % 2040 % 1440] + rest, r2)
  }

  function ListsOf(key: Bytes): (q: (seq<nat>, seq<nat>)) {
    var (r1, x) := Draw(FromBin(key));
    var (first, r2) := DrawSizes(r1, x % 8 + 4);
    var (r3, y) := Draw(r2);
    (Sort(first), Sort(DrawSizes(r3, y % 16 + 8).0))
  }

  /** Whatever the node key, both lists are sorted, within 4..11 and 8..23 entries, and below 1440. */
  lemma ListsAreWellFormed(key: Bytes)
    ensures var (dsl, dsl2) := ListsOf(key);
            && SizeList(dsl) && 4 <= |dsl| < 12
            && SizeList(dsl2) && 8 <= |dsl2| < 24
  {
    hide Draw, FromBin, Sort, DrawSizes, SizeList;
    var (r1, x) := Draw(FromBin(key));
    var (first, r2) := DrawSizes(r1, x % 8 + 4);
    var (r3, y) := Draw(r2);
    SortBelow(first);
    SortBelow(DrawSizes(r3, y % 16 + 8).0);
  }

  /** `n` entries as the outputs of a generator from the k-th on give them. */
  function Entries(g: Prng, k: nat, n: nat): seq<nat> {
    seq(n, (i: nat) => Output(g, k + i) % 2340 % 2040 % 1440)
  }

  lemma {:induction false} DrawSizesAre(g: Prng, k: nat, n: nat)
    ensures DrawSizes(After(g, k), n) == (Entries(g, k, n), After(g, k + n))
    decreases n
  {
    hide Draw, Output, After, Entries;
    EntriesCons(g, k, n);
    if n > 0 {
      OneDraw(g, k);
      DrawSizesAre(g, k + 1, n - 1);
    }
  }

  lemma EntriesCons(g: Prng, k: nat, n: nat)
    ensures n == 0 ==> Entries(g, k, n) == []
    ensures n > 0 ==> Entries(g, k, n) == [Output(g, k) % 2340 % 2040 % 1440] + Entries(g, k + 1, n - 1)
  {
    hide Output;
    if n > 0 {
      var e, rest := Entries(g, k, n), Entries(g, k + 1, n - 1);
      forall i | 0 <= i < n ensures e[i] == ([Output(g, k) % 2340 % 2040 % 1440] + rest)[i] {
        if i > 0 { assert k + 1 + (i - 1) == k + i; }
      }
    }
  }

  lemma OneDraw(g: Prng, k: nat)
    ensures Draw(After(g, k)) == (After(g, k + 1), Output(g, k))
  {
  }

  /** Which lists those are: the first output of the generator seeded with the key says how many entries
      the first list has, the next outputs are its entries, the one after them says how many the second
      list has, and the following are its entries; both are sorted. */
  lemma ListsAre(key: Bytes)
    ensures var g := Start(Sixteen(key));
            var n := Output(g, 0) % 8 + 4;
            var m := Output(g, n + 1) % 16 + 8;
            var (dsl, dsl2) := ListsOf(key);
            && Sorted(dsl) && multiset(dsl) == multiset(Entries(g, 1, n))
            && Sorted(dsl2) && multiset(dsl2) == multiset(Entries(g, n + 2, m))
  {
    hide Draw, FromBin, Sort, DrawSizes, Output, Start, Entries;
    var g := Start(Sixteen(key));
    SeedIs(key);
    NoDraws(g);
    OneDraw(g, 0);
    var n := Output(g, 0) % 8 + 4;
    DrawSizesAre(g, 1, n);
    OneDraw(g, n + 1);
    var m := Output(g, n + 1) % 16 + 8;
    DrawSizesAre(g, n + 2, m);
    SortSorts(Entries(g, 1, n));
    SortSorts(Entries(g, n + 2, m));
  }

  lemma SortBelow(s: seq<nat>)
    requires |s| > 0 && forall i :: 0 <= i < |s| ==> s[i] < 1440
    ensures SizeList(Sort(s)) && |Sort(s)| == |s|
  {
    SortSorts(s);
    var t := Sort(s);
    forall i | 0 <= i < |t| ensures t[i] < 1440 {
      assert t[i] in multiset(s);
    }
  }

  function NewScheme(salt: string, key: Bytes): Scheme {
    if salt == "auth_chain_b" then
      ListsAreWellFormed(key);
      ChainB(ListsOf(key).0, ListsOf(key).1)
    else ChainA
  }

  method BuildScheme(salt: string, key: Bytes) returns (z: Scheme)
    ensures z == NewScheme(salt, key)
    ensures z.ChainB? <==> salt == "auth_chain_b"
    ensures z.ChainB? ==> (z.dsl, z.dsl2) == ListsOf(key)
  {
    if salt != "auth_chain_b" {
      return ChainA;
    }
    var dsl, dsl2 := BuildLists(key);
    ListsAreWellFormed(key);
    z := ChainB(dsl, dsl2);
  }

  method BuildLists(key: Bytes) returns (dsl: seq<nat>, dsl2: seq<nat>)
    ensures (dsl, dsl2) == ListsOf(key)
  {
    var r := new Generator();
    r.InitFromBin(key);
    hide Draw, DrawSizes, Sort, FromBin;
    var x := r.Next();
    dsl := DrawList(r, x % 8 + 4);
    dsl := Sort(dsl);
    x := r.Next();
    dsl2 := DrawList(r, x % 16 + 8);
    dsl2 := Sort(dsl2);
  }

  method DrawList(r: Generator, count: nat) returns (list: seq<nat>)
    modifies r
    ensures (list, r.State()) == DrawSizes(old(r.State()), count)
  {
    hide Draw;
    list := [];
    var n: nat := count;
    while n > 0
      invariant n <= count
      invariant DrawSizes(old(r.State()), count).0 == list + DrawSizes(r.State(), n).0
      invariant DrawSizes(old(r.State()), count).1 == DrawSizes(r.State(), n).1
    {
      var x := r.Next();
      list := list + [x % 2340 % 2040 % 1440];
      n := n - 1;
    }
    assert list + [] == list;
  }

  // ---- getRandLen / getRandLenB ----

  /** The first index whose entry is at least `x`: what `sort.Search` returns on a sorted list. */
  function LowerBound(s: seq<nat>, x: nat): (i: nat)
    ensures i <= |s|
    ensures forall j :: 0 <= j < i ==> s[j] < x
    ensures i < |s| ==> s[i] >= x
  {
    if s == [] || s[0] >= x then 0 else 1 + LowerBound(s[1..], x)
  }

  /** The binary search of Go's `sort.Search`. */
  method Search(s: seq<nat>, x: nat) returns (i: nat)
    requires Sorted(s)
    ensures i == LowerBound(s, x)
  {
    var j := |s|;
    i := 0;
    while i < j
      invariant 0 <= i <= j <= |s|
      invariant i > 0 ==> s[i - 1] < x
      invariant j < |s| ==> s[j] >= x
    {
      var h := (i + j) / 2;
      if s[h] >= x { j := h; } else { i := h + 1; }
    }
  }

  /** The tail of both length functions: the padding drawn for small, medium and large frames. */
  function Spread(length: nat, r: Prng): (nat, Prng) {
    var (r1, x) := Draw(r);
    (x % (if length > 1300 then 31 else if length > 900 then 127 else if length > 400 then 521 else 1021), r1)
  }

  /** The entry a draw `x` selects: counted on from the first one that would fit, possibly past the end. */
  function Slot(s: seq<nat>, want: nat, x: u64): (i: nat)
    requires |s| > 0
    ensures LowerBound(s, want) <= i < LowerBound(s, want) + |s|
  {
    LowerBound(s, want) + x % |s|
  }

  function RandLenB(dsl: seq<nat>, dsl2: seq<nat>, overhead: nat, length: nat, hash: Hash, r: Prng): (int, Prng)
    requires |dsl| > 0 && |dsl2| > 0
  {
    if length >= 1440 then (0, r) else FirstList(dsl, dsl2, length + overhead, length, Seeded(hash, length))
  }

  function FirstList(dsl: seq<nat>, dsl2: seq<nat>, want: nat, length: nat, r: Prng): (int, Prng)
    requires |dsl| > 0 && |dsl2| > 0
  {
    var (r1, x) := Draw(r);
    var final := Slot(dsl, want, x);
    if final < |dsl| then (dsl[final] - want, r1) else SecondList(dsl2, want, length, r1)
  }

  function SecondList(dsl2: seq<nat>, want: nat, length: nat, r: Prng): (int, Prng)
    requires |dsl2| > 0
  {
    var (r1, y) := Draw(r);
    var final := Slot(dsl2, want, y);
    if final < |dsl2| then (dsl2[final] - want, r1)
    else if final < LowerBound(dsl2, want) + |dsl2| - 1 then (0, r1)
    else Spread(length, r1)
  }

  /** Padding length of a frame of `length` data bytes, and the generator afterwards. */
  function RandLen(z: Scheme, overhead: nat, length: nat, hash: Hash, r: Prng): (int, Prng) {
    match z
    case ChainB(dsl, dsl2) => RandLenB(dsl, dsl2, overhead, length, hash, r)
    case ChainA => if length > 1440 then (0, r) else Spread(length, Seeded(hash, length))
  }

  /** Where the payload starts inside the padding. */
  function StartPos(randLen: nat, r: Prng): (q: (nat, Prng))
    ensures q.0 <= randLen && (randLen > 0 ==> q.0 < randLen)
  {
    if randLen == 0 then (0, r) else
      var (r1, x) := Draw(r);
      (x % 8589934609 % randLen, r1)
  }

  /** Padding is never negative, and a padded frame is no longer than its data or 1470 bytes. */
  lemma RandLenBounds(z: Scheme, overhead: nat, length: nat, hash: Hash, r: Prng)
    ensures var n := RandLen(z, overhead, length, hash, r).0;
            0 <= n && length + n <= Max(length, 1470)
  {
    hide Draw, Seeded;
  }

  /** The generator value carried over from the previous frame is never observed: it decides neither
      the padding length nor, whenever there is padding to start inside of, the state the start
      position is drawn from; and drawing the length again changes nothing. */
  lemma CarriedStateUnobserved(z: Scheme, overhead: nat, length: nat, hash: Hash, r: Prng, r': Prng)
    ensures var (n, q) := RandLen(z, overhead, length, hash, r);
            var (n', q') := RandLen(z, overhead, length, hash, r');
            && n == n' && (n > 0 ==> q == q')
            && RandLen(z, overhead, length, hash, q) == (n, q)
  {
    hide Draw, Seeded, FirstList;
  }

  // ---- what the padding is ----

  /** The padding `n` that an output `x` stands for, by the length of the data. */
  predicate SpreadBy(length: nat, x: u64, n: int) {
    && (length > 1300 ==> n == x % 31)
    && (900 < length <= 1300 ==> n == x % 127)
    && (400 < length <= 900 ==> n == x % 521)
    && (length <= 400 ==> n == x % 1021)
  }

  /** auth_chain_a: the fifth output of the generator that the hash and the length seed decides; data of
      more than 1440 bytes is not padded. */
  lemma PaddingA(overhead: nat, length: nat, hash: Hash, r: Prng)
    ensures var g := Start(FrameSeed(hash, length));
            var (n, r') := RandLen(ChainA, overhead, length, hash, r);
            && (length > 1440 ==> n == 0 && r' == r)
            && (length <= 1440 ==> SpreadBy(length, Output(g, 4), n) && r' == After(g, 5))
  {
    hide Draw, Seeded, Start, Output, After, Spread, SpreadBy;
    SeededIs(hash, length);
    SpreadIs(length, Start(FrameSeed(hash, length)), 4);
  }

  /** auth_chain_b: the padded size is the entry that the fifth output selects in the first list, or the
      sixth in the second; behind the last slot of the second the padding is that of auth_chain_a for the
      seventh output, and for the other slots past its end there is none. */
  lemma PaddingB(dsl: seq<nat>, dsl2: seq<nat>, overhead: nat, length: nat, hash: Hash, r: Prng)
    requires SizeList(dsl) && SizeList(dsl2)
    ensures var g, want := Start(FrameSeed(hash, length)), length + overhead;
            var x, y := Output(g, 4) % |dsl|, Output(g, 5) % |dsl2|;
            var i, j := LowerBound(dsl, want) + x, LowerBound(dsl2, want) + y;
            var (n, r') := RandLen(ChainB(dsl, dsl2), overhead, length, hash, r);
            && (length >= 1440 ==> n == 0 && r' == r)
            && (length < 1440 && i < |dsl| ==> want + n == dsl[i] && r' == After(g, 5))
            && (length < 1440 && i >= |dsl| ==>
                  && (j < |dsl2| ==> want + n == dsl2[j] && r' == After(g, 6))
                  && (j >= |dsl2| && y < |dsl2| - 1 ==> n == 0 && r' == After(g, 6))
                  && (j >= |dsl2| && y == |dsl2| - 1 ==> SpreadBy(length, Output(g, 6), n) && r' == After(g, 7)))
  {
    hide Draw, Seeded, Start, Output, After, LowerBound, FirstList;
    var g := Start(FrameSeed(hash, length));
    SeededIs(hash, length);
    FirstListIs(dsl, dsl2, length + overhead, length, g, 4);
  }

  lemma FirstListIs(dsl: seq<nat>, dsl2: seq<nat>, want: nat, length: nat, g: Prng, k: nat)
    requires |dsl| > 0 && |dsl2| > 0
    ensures var x, y := Output(g, k) % |dsl|, Output(g, k + 1) % |dsl2|;
            var i, j := LowerBound(dsl, want) + x, LowerBound(dsl2, want) + y;
            var (n, r') := FirstList(dsl, dsl2, want, length, After(g, k));
            && (i < |dsl| ==> want + n == dsl[i] && r' == After(g, k + 1))
            && (i >= |dsl| ==>
                  && (j < |dsl2| ==> want + n == dsl2[j] && r' == After(g, k + 2))
                  && (j >= |dsl2| && y < |dsl2| - 1 ==> n == 0 && r' == After(g, k + 2))
                  && (j >= |dsl2| && y == |dsl2| - 1 ==> SpreadBy(length, Output(g, k + 2), n) && r' == After(g, k + 3)))
  {
    hide Draw, Output, After, LowerBound, SecondList, SpreadBy;
    OneDraw(g, k);
    SecondListIs(dsl2, want, length, g, k + 1);
  }

  lemma SecondListIs(dsl2: seq<nat>, want: nat, length: nat, g: Prng, k: nat)
    requires |dsl2| > 0
    ensures var y := Output(g, k) % |dsl2|;
            var j := LowerBound(dsl2, want) + y;
            var (n, r') := SecondList(dsl2, want, length, After(g, k));
            && (j < |dsl2| ==> want + n == dsl2[j] && r' == After(g, k + 1))
            && (j >= |dsl2| && y < |dsl2| - 1 ==> n == 0 && r' == After(g, k + 1))
            && (j >= |dsl2| && y == |dsl2| - 1 ==> SpreadBy(length, Output(g, k + 1), n) && r' == After(g, k + 2))
  {
    hide Draw, Output, After, LowerBound, Spread, SpreadBy;
    OneDraw(g, k);
    SpreadIs(length, g, k + 1);
  }

  lemma SpreadIs(length: nat, g: Prng, k: nat)
    ensures var (n, r') := Spread(length, After(g, k)); SpreadBy(length, Output(g, k), n) && r' == After(g, k + 1)
  {
    hide Draw, Output, After;
    OneDraw(g, k);
  }

  /** The payload starts where the next output says. */
  lemma OffsetIs(n: nat, g: Prng, k: nat)
    ensures n == 0 ==> StartPos(n, After(g, k)) == (0, After(g, k))
    ensures n > 0 ==> StartPos(n, After(g, k)) == (Output(g, k) % 8589934609 % n, After(g, k + 1))
  {
    hide Draw, Output, After;
    OneDraw(g, k);
  }

  method GetRandLen(z: Scheme, overhead: nat, length: nat, hash: Hash, r: Generator) returns (n: int)
    modifies r
    ensures (n, r.State()) == RandLen(z, overhead, length, hash, old(r.State()))
  {
    if z.ChainB? {
      n := GetRandLenB(z.dsl, z.dsl2, overhead, length, hash, r);
      return;
    }
    if length > 1440 {
      return 0;
    }
    r.InitFromBinAndLength(hash, length);
    n := DrawSpread(length, r);
  }

  method GetRandStartPos(randLen: nat, r: Generator) returns (pos: nat)
    modifies r
    ensures (pos, r.State()) == StartPos(randLen, old(r.State()))
  {
    hide Draw;
    if randLen == 0 {
      return 0;
    }
    var x := r.Next();
    pos := x % 8589934609 % randLen;
  }

  method DrawSpread(length: nat, r: Generator) returns (n: nat)
    modifies r
    ensures (n, r.State()) == Spread(length, old(r.State()))
  {
    var x := r.Next();
    if length > 1300 { return x % 31; }
    if length > 900 { return x % 127; }
    if length > 400 { return x % 521; }
    return x % 1021;
  }

  method GetRandLenB(dsl: seq<nat>, dsl2: seq<nat>, overhead: nat, length: nat, hash: Hash, r: Generator)
    returns (n: int)
    requires SizeList(dsl) && SizeList(dsl2)
    modifies r
    ensures (n, r.State()) == RandLenB(dsl, dsl2, overhead, length, hash, old(r.State()))
  {
    if length >= 1440 {
      return 0;
    }
    hide Seeded, FirstList;
    r.InitFromBinAndLength(hash, length);
    n := TryFirstList(dsl, dsl2, length + overhead, length, r);
  }

  method TryFirstList(dsl: seq<nat>, dsl2: seq<nat>, want: nat, length: nat, r: Generator) returns (n: int)
    requires SizeList(dsl) && SizeList(dsl2)
    modifies r
    ensures (n, r.State()) == FirstList(dsl, dsl2, want, length, old(r.State()))
  {
    hide Draw, Slot, LowerBound, SecondList;
    var _, finalPos := DrawSlot(dsl, want, r);
    if finalPos < |dsl| {
      return dsl[finalPos] - want;
    }
    n := TrySecondList(dsl2, want, length, r);
  }

  method TrySecondList(dsl2: seq<nat>, want: nat, length: nat, r: Generator) returns (n: int)
    requires SizeList(dsl2)
    modifies r
    ensures (n, r.State()) == SecondList(dsl2, want, length, old(r.State()))
  {
    hide Draw, Slot, LowerBound, Spread;
    var pos, finalPos := DrawSlot(dsl2, want, r);
    if finalPos < |dsl2| {
      return dsl2[finalPos] - want;
    }
    if finalPos < pos + |dsl2| - 1 {
      return 0;
    }
    n := DrawSpread(length, r);
  }

  method DrawSlot(s: seq<nat>, want: nat, r: Generator) returns (pos: nat, finalPos: nat)
    requires SizeList(s)
    modifies r
    ensures pos == LowerBound(s, want)
    ensures var (r', x) := Draw(old(r.State())); r.State() == r' && finalPos == Slot(s, want, x)
  {
    hide Draw;
    pos := Search(s, want);
    var x := r.Next();
    finalPos := pos + x % |s|;
  }
}
