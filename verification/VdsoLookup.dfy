/** Symbol lookup in the vDSO (lib/parse_vdso.c): hashed lookups against a linear scan. */
module VdsoLookup {
  import opened Arithmetic
  import opened ElfHashing

  datatype Binding = Local | Global | Weak

  /** An ELF symbol, with its name read from the string table. */
  datatype Symbol = Symbol(name: Name, isFunc: bool, bind: Binding, undefined: bool, value: int)

  /** A version definition; the last one of the table has no next. */
  datatype VerDef = VerDef(base: bool, ndx: nat, hash: nat, name: Name)

  /** `struct vdso_info` once valid, without its hash table; `versym` is empty when there is no version table. */
  datatype Image = Image(syms: seq<Symbol>, versioned: bool, versym: seq<nat>, defs: seq<VerDef>) {
    ghost predicate Valid() {
      versioned ==> |versym| == |syms| && defs != []
    }
  }

  // ---------- Matching a symbol ----------

  /** Definition `k` is the first one that is not the base definition and has the index of `ver`. */
  ghost predicate Defines(defs: seq<VerDef>, ver: nat, k: int) {
    && 0 <= k < |defs| && !defs[k].base && defs[k].ndx % 0x8000 == ver % 0x8000
    && forall j :: 0 <= j < k ==> defs[j].base || defs[j].ndx % 0x8000 != ver % 0x8000
  }

  ghost predicate VersionMatches(defs: seq<VerDef>, ver: nat, name: Name, hash: nat) {
    exists k :: Defines(defs, ver, k) && defs[k].hash == hash && defs[k].name == name
  }

  /** vdso_match_version () */
  method MatchVersion(defs: seq<VerDef>, ver: nat, name: Name, hash: nat) returns (ok: bool)
    requires defs != []
    ensures ok <==> VersionMatches(defs, ver, name, hash)
  {
    var k := 0;
    while true
      invariant 0 <= k < |defs|
      invariant forall j :: 0 <= j < k ==> defs[j].base || defs[j].ndx % 0x8000 != ver % 0x8000
      decreases |defs| - k
    {
      if !defs[k].base && defs[k].ndx % 0x8000 == ver % 0x8000 {
        break;
      }
      if k == |defs| - 1 {
        return false;
      }
      k := k + 1;
    }
    assert Defines(defs, ver, k);
    ok := defs[k].hash == hash && defs[k].name == name;
  }

  /** A defined global or weak function with this name and version; the hash of the version is converted to 32 bits. */
  ghost predicate Wanted(v: Image, i: int, name: Name, version: Name)
    requires v.Valid() && 0 <= i < |v.syms|
  {
    var s := v.syms[i];
    && s.isFunc && (s.bind.Global? || s.bind.Weak?) && s.name == name
    && (v.versioned ==> VersionMatches(v.defs, v.versym[i], version, StdFold(version)))
  }

  /** check_sym () */
  method CheckSym(v: Image, i: nat, name: Name, version: Name, verHash: nat) returns (ok: bool)
    requires v.Valid() && i < |v.syms| && verHash == ElfFold(version)
    ensures ok <==> Wanted(v, i, name, version)
  {
    hide VersionMatches, ElfFold, StdFold;
    var s := v.syms[i];
    if !s.isFunc {
      return false;
    }
    if !s.bind.Global? && !s.bind.Weak? {
      return false;
    }
    if s.name != name {
      return false;
    }
    LowBits(version);
    if v.versioned {
      var found := MatchVersion(v.defs, v.versym[i], version, verHash % UINT32_RANGE);
      if !found {
        return false;
      }
    }
    ok := true;
  }

  // ---------- The GNU hash table ----------

  /** Buckets hold the index of their first symbol, 0 when empty; `vals` are the hash values from symbol `first` on. */
  datatype GnuTable = GnuTable(first: nat, bucket: seq<nat>, vals: seq<nat>)

  function GnuBucket(s: Symbol, n: nat): int
    requires n > 0
  {
    GnuValue(s.name) % n
  }

  /** The hash value stored for a symbol: its low bit marks the last one of a bucket. */
  function HashVal(h: nat, last: bool): nat {
    h / 2 * 2 + (if last then 1 else 0)
  }

  ghost predicate LastOfBucket(syms: seq<Symbol>, n: nat, i: int)
    requires n > 0 && 0 <= i < |syms|
  {
    i + 1 == |syms| || GnuBucket(syms[i + 1], n) != GnuBucket(syms[i], n)
  }

  /** Symbols are sorted by bucket. */
  ghost predicate GnuSorted(t: GnuTable, syms: seq<Symbol>)
    requires t.bucket != []
  {
    forall i, j :: t.first <= i < j < |syms| ==> GnuBucket(syms[i], |t.bucket|) <= GnuBucket(syms[j], |t.bucket|)
  }

  ghost predicate GnuVals(t: GnuTable, syms: seq<Symbol>)
    requires t.bucket != [] && 0 < t.first <= |syms| && |t.vals| == |syms| - t.first
  {
    forall i :: t.first <= i < |syms| ==>
      t.vals[i - t.first] == HashVal(GnuValue(syms[i].name), LastOfBucket(syms, |t.bucket|, i))
  }

  /** Bucket `b` heads its symbols. */
  ghost predicate GnuHead(t: GnuTable, syms: seq<Symbol>, b: int)
    requires 0 <= b < |t.bucket| && 0 < t.first <= |syms|
  {
    var head := t.bucket[b];
    && (head != 0 ==> t.first <= head < |syms| && GnuBucket(syms[head], |t.bucket|) == b)
    && (forall i :: t.first <= i < |syms| && (head == 0 || i < head) ==> GnuBucket(syms[i], |t.bucket|) != b)
  }

  ghost predicate GnuWellFormed(t: GnuTable, syms: seq<Symbol>) {
    && t.bucket != [] && 0 < t.first <= |syms| && |t.vals| == |syms| - t.first
    && GnuSorted(t, syms) && GnuVals(t, syms)
    && forall b :: 0 <= b < |t.bucket| ==> GnuHead(t, syms, b)
  }

  /** `h1 == (h2 | 1)`, once `h1 |= 1`: the two values agree but for their low bit. */
  predicate SameVal(h1: nat, h2: nat) {
    h1 / 2 == h2 / 2
  }

  /** `h2 & 1` */
  predicate EndMark(h2: nat) {
    h2 % 2 != 0
  }

  lemma {:induction false} ValMark(h: nat, last: bool)
    ensures EndMark(HashVal(h, last)) == last
  {
  }

  lemma {:induction false} ValSame(h: nat, last: bool)
    ensures SameVal(h, HashVal(h, last))
  {
  }

  /** The GNU path of evl_lookup_vdso (): the first wanted symbol of the table, or -1. */
  method LookupGnu(v: Image, t: GnuTable, version: Name, name: Name) returns (r: int)
    requires v.Valid() && GnuWellFormed(t, v.syms)
    ensures r == -1 ==> forall i :: t.first <= i < |v.syms| ==> !Wanted(v, i, name, version)
    ensures r != -1 ==> t.first <= r < |v.syms| && Wanted(v, r, name, version)
    ensures r != -1 ==> forall i :: t.first <= i < r ==> !Wanted(v, i, name, version)
  {
    hide Wanted, GnuValue, HashVal, SameVal, EndMark, GnuSorted, GnuVals;
    var n := |t.bucket|;
    var verHash := ElfHash(version);
    var h1 := GnuHash(name);
    ghost var b := h1 % n;
    WantedBucket(v, n, name, version);
    assert GnuHead(t, v.syms, b);
    var i := t.bucket[h1 % n];
    if i == 0 {
      return -1;
    }
    while true
      invariant t.first <= i < |v.syms| && GnuBucket(v.syms[i], n) == b
      invariant forall j :: t.first <= j < i ==> !Wanted(v, j, name, version)
      decreases |v.syms| - i
    {
      var h2 := t.vals[i - t.first];
      OneVal(v, t, i, name, version);
      if SameVal(h1, h2) {
        var ok := CheckSym(v, i, name, version, verHash);
        if ok {
          return i;
        }
      }
      if EndMark(h2) {
        break;
      }
      i := i + 1;
    }
    BucketEnds(v, t, i, name, version);
    return -1;
  }

  /** Wanted symbols are in the bucket of the name. */
  lemma {:induction false} WantedBucket(v: Image, n: nat, name: Name, version: Name)
    requires v.Valid() && n > 0
    ensures forall i :: 0 <= i < |v.syms| && Wanted(v, i, name, version) ==>
              GnuBucket(v.syms[i], n) == GnuValue(name) % n
  {
    hide GnuValue, VersionMatches;
  }

  /** A wanted symbol has the hash value that is looked for; the mark ends the bucket. */
  lemma {:induction false} OneVal(v: Image, t: GnuTable, i: nat, name: Name, version: Name)
    requires v.Valid() && GnuWellFormed(t, v.syms) && t.first <= i < |v.syms|
    ensures Wanted(v, i, name, version) ==> SameVal(GnuValue(name), t.vals[i - t.first])
    ensures EndMark(t.vals[i - t.first]) == LastOfBucket(v.syms, |t.bucket|, i)
  {
    hide GnuValue, HashVal, SameVal, EndMark, GnuSorted, VersionMatches, GnuHead, LastOfBucket;
    ValSame(GnuValue(name), LastOfBucket(v.syms, |t.bucket|, i));
    ValMark(GnuValue(v.syms[i].name), LastOfBucket(v.syms, |t.bucket|, i));
  }

  /** Beyond the last symbol of its bucket, nothing is wanted. */
  lemma {:induction false} BucketEnds(v: Image, t: GnuTable, i: nat, name: Name, version: Name)
    requires v.Valid() && GnuWellFormed(t, v.syms) && t.first <= i < |v.syms|
    requires GnuBucket(v.syms[i], |t.bucket|) == GnuValue(name) % |t.bucket| && LastOfBucket(v.syms, |t.bucket|, i)
    ensures forall j :: i < j < |v.syms| ==> !Wanted(v, j, name, version)
  {
    hide GnuValue, GnuVals, GnuHead, Wanted;
    WantedBucket(v, |t.bucket|, name, version);
    forall j | i < j < |v.syms| ensures GnuBucket(v.syms[j], |t.bucket|) != GnuBucket(v.syms[i], |t.bucket|) {
      assert GnuBucket(v.syms[i], |t.bucket|) <= GnuBucket(v.syms[i + 1], |t.bucket|);
      assert i + 1 < j ==> GnuBucket(v.syms[i + 1], |t.bucket|) <= GnuBucket(v.syms[j], |t.bucket|);
    }
  }

  // ---------- The System V hash table ----------

  /** Buckets head chains of symbols, linked by `chain` and ended by 0. */
  datatype SysVTable = SysVTable(bucket: seq<nat>, chain: seq<nat>)

  /** `path` is the chain that starts at `i`. */
  ghost predicate Chained(chain: seq<nat>, i: nat, path: seq<nat>)
    decreases |path|
  {
    if path == [] then i == 0
    else i == path[0] && 0 < i < |chain| && Chained(chain, chain[i], path[1..])
  }

  function SysVBucket(s: Symbol, n: nat): int
    requires n > 0
  {
    StdFold(s.name) % n
  }

  /** The chain of each bucket goes through its symbols; `paths` are the chains. */
  ghost predicate SysVWellFormed(t: SysVTable, syms: seq<Symbol>, paths: seq<seq<nat>>) {
    var n := |t.bucket|;
    && n > 0 && |t.chain| == |syms| && |paths| == n
    && (forall b :: 0 <= b < n ==> Chained(t.chain, t.bucket[b], paths[b]))
    && (forall b, i :: 0 <= b < n ==> (i in paths[b] <==> 0 < i < |syms| && SysVBucket(syms[i], n) == b))
  }

  /** A symbol that the scan of the whole table would return. */
  ghost predicate WantedHere(v: Image, i: int, name: Name, version: Name)
    requires v.Valid()
  {
    0 < i < |v.syms| && !v.syms[i].undefined && Wanted(v, i, name, version)
  }

  /** The System V path of evl_lookup_vdso (): a wanted symbol, or 0. */
  method LookupSysV(v: Image, t: SysVTable, version: Name, name: Name, ghost paths: seq<seq<nat>>) returns (r: nat)
    requires v.Valid() && SysVWellFormed(t, v.syms, paths)
    ensures r != 0 ==> WantedHere(v, r, name, version)
    ensures r != 0 <==> (exists i :: WantedHere(v, i, name, version))
                        && UINT32_RANGE * Carries(name, 8) % |t.bucket| == 0
  {
    hide Wanted, ElfFold, StdFold, Carries;
    var n := |t.bucket|;
    var verHash := ElfHash(version);
    var h := ElfHash(name);
    ghost var b := h % n;
    var i := t.bucket[h % n];
    ghost var left := paths[b];
    WantedChain(v, t, paths, name, version);
    SameBucketIff(name, n);
    while i != 0
      invariant Chained(t.chain, i, left)
      invariant forall j :: j in left ==> j in paths[b]
      invariant forall j :: j in paths[b] && j !in left ==> !WantedHere(v, j, name, version)
      decreases |left|
    {
      assert i in left;
      if !v.syms[i].undefined {
        var ok := CheckSym(v, i, name, version, verHash);
        if ok {
          return i;
        }
      }
      i := t.chain[i];
      left := left[1..];
    }
    return 0;
  }

  /** Wanted symbols are in the chain of the standard hash of the name. */
  lemma {:induction false} WantedChain(v: Image, t: SysVTable, paths: seq<seq<nat>>, name: Name, version: Name)
    requires v.Valid() && SysVWellFormed(t, v.syms, paths)
    ensures forall i, b :: 0 <= b < |t.bucket| && WantedHere(v, i, name, version) ==>
              (i in paths[b] <==> b == StdFold(name) % |t.bucket|)
  {
  }

  // ---------- A symbol that is there and not found ----------

  /** A table of three buckets with one function, of the name WIDE. */
  lemma {:induction false} WideTable() returns (v: Image, t: SysVTable, paths: seq<seq<nat>>)
    ensures v.Valid() && SysVWellFormed(t, v.syms, paths) && WantedHere(v, 1, WIDE, [])
    ensures |t.bucket| == 3 && UINT32_RANGE * Carries(WIDE, 8) % |t.bucket| != 0
  {
    WideHash();
    SameBucketIff(WIDE, 3);
    hide ElfFold, StdFold, Carries;
    v := Image([Symbol([], false, Local, true, 0), Symbol(WIDE, true, Global, false, 0x1000)], false, [], []);
    t := SysVTable([0, 0, 1], [0, 0]);
    paths := [[], [], [1]];
    assert Chained(t.chain, 0, []) && Chained(t.chain, 1, [1]);
  }

  /** The table is well-formed, a scan finds the symbol, and the lookup returns 0. */
  method WideLookup(v: Image, t: SysVTable, ghost paths: seq<seq<nat>>) returns (r: nat)
    requires v.Valid() && SysVWellFormed(t, v.syms, paths) && |t.bucket| == 3
    ensures r == 0
  {
    WideHash();
    SameBucketIff(WIDE, 3);
    hide ElfFold, StdFold, Carries;
    r := LookupSysV(v, t, [], WIDE, paths);
  }
}
