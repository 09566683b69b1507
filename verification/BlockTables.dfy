/** What BZ2_decompress makes of the selectors and code lengths it read. */
module BlockTables {
  import opened MoveToFront
  import opened BlockFormat
  import opened CanonicalCode

  /** Of count selectors one is stored at place i. */
  ghost predicate StoredAt(i: int, count: nat) { 0 <= i < count }

  /** Arrays of BZ_MAX_SELECTORS entries have all places that count selectors are stored at just when
      count is at most that, as it is in every block the compressor writes. */
  lemma SelectorRoom(count: nat)
    ensures (forall i :: StoredAt(i, count) ==> i < MAX_SELECTORS) <==> count <= MAX_SELECTORS
  {
    if count > MAX_SELECTORS { assert StoredAt(MAX_SELECTORS, count); }
  }

  /** Undoes the move-to-front values of the selectors. */
  method UndoMoves(selectorMtf: seq<int>, nGroups: nat) returns (selector: seq<int>)
    requires 1 <= nGroups <= 6 && forall k | 0 <= k < |selectorMtf| :: 0 <= selectorMtf[k] < nGroups
    ensures selector == SelOf(selectorMtf, nGroups)
  {
    hide ListAfter;
    var pos := new int[6];
    for v := 0 to nGroups
      invariant forall k | 0 <= k < v :: pos[k] == k
    {
      pos[v] := v;
    }
    selector := [];
    ListFirst(selectorMtf, nGroups);
    for i := 0 to |selectorMtf|
      invariant |selector| == i && pos[..nGroups] == ListAfter(selectorMtf, nGroups, i)
      invariant forall k | 0 <= k < i :: selector[k] == ListAfter(selectorMtf, nGroups, k)[selectorMtf[k]]
    {
      ghost var l := ListAfter(selectorMtf, nGroups, i);
      ListNext(selectorMtf, nGroups, i);
      var tmp := TakeOut(pos, selectorMtf[i], nGroups, l);
      selector := selector + [tmp];
    }
  }

  /** Moves entry v0 of pos to the front. */
  method TakeOut(pos: array<int>, v0: nat, ghost n: nat, ghost l: seq<int>) returns (tmp: int)
    requires v0 < n <= pos.Length && pos[..n] == l
    modifies pos
    ensures tmp == l[v0] && pos[..n] == ToFront(l, v0)
  {
    assert forall k | 0 <= k < n :: pos[k] == l[k];
    var v := v0;
    tmp := pos[v];
    while v > 0
      invariant 0 <= v <= v0
      invariant forall k | v < k <= v0 :: pos[k] == l[k - 1]
      invariant forall k | 0 <= k < n && !(v < k <= v0) :: pos[k] == l[k]
    {
      pos[v] := pos[v - 1];
      v := v - 1;
    }
    pos[0] := tmp;
  }

  lemma ListFirst(m: seq<int>, n: nat)
    requires forall k | 0 <= k < |m| :: 0 <= m[k] < n
    ensures ListAfter(m, n, 0) == Iota(n)
  {}

  /** limit, base and perm of one coding table, and its shortest length. */
  datatype Table = Table(limit: seq<int>, base: seq<int>, perm: seq<int>, minLen: nat)

  ghost predicate TableFor(t: Table, L: seq<int>) {
    t.minLen == Shortest(L, |L|) && Tables(L, t.minLen, Longest(L, |L|), t.limit, t.base, t.perm)
  }

  ghost predicate TablesFor(tables: seq<Table>, lens: seq<seq<int>>) {
    |tables| == |lens| && forall t | 0 <= t < |lens| :: TableFor(tables[t], lens[t])
  }

  /** The decode tables of one code. */
  method BuildTable(L: seq<int>) returns (table: Table)
    requires 1 <= |L| <= 258 && forall i | 0 <= i < |L| :: 1 <= L[i] <= 20
    ensures TableFor(table, L)
  {
    hide Tables, Shortest, Longest;
    var alphaSize := |L|;
    var len := new int[alphaSize](i requires 0 <= i < alphaSize => L[i]);
    assert len[..alphaSize] == L;
    assert forall i | 0 <= i < alphaSize :: len[i] == L[i];
    var minLen, maxLen := 32, 0;
    NoLengths(L);
    for i := 0 to alphaSize
      invariant minLen == Shortest(L, i) && maxLen == Longest(L, i)
      invariant forall k | 0 <= k < alphaSize :: len[k] == L[k]
    {
      NextLengths(L, i);
      assert len[i] == L[i];
      if len[i] > maxLen { maxLen := len[i]; }
      if len[i] < minLen { minLen := len[i]; }
    }
    var limit, base, perm := new int[258], new int[258], new int[258];
    CreateDecodeTables(limit, base, perm, len, minLen, maxLen, alphaSize);
    assert len[..alphaSize] == L;
    table := Table(limit[..], base[..], perm[..], minLen);
  }

  lemma NoLengths(L: seq<int>)
    ensures Shortest(L, 0) == 32 && Longest(L, 0) == 0
  {}

  lemma NextLengths(L: seq<int>, i: nat)
    requires i < |L|
    ensures Shortest(L, i + 1) == if L[i] < Shortest(L, i) then L[i] else Shortest(L, i)
    ensures Longest(L, i + 1) == if L[i] > Longest(L, i) then L[i] else Longest(L, i)
  {}

  /** The decode tables of all codes. */
  method BuildTables(lens: seq<seq<int>>, alphaSize: nat) returns (tables: seq<Table>)
    requires LengthsOk(lens, alphaSize) && alphaSize <= 258
    ensures TablesFor(tables, lens)
  {
    hide TableFor;
    tables := [];
    for t := 0 to |lens|
      invariant |tables| == t && forall k | 0 <= k < t :: TableFor(tables[k], lens[k])
    {
      var table := BuildTable(lens[t]);
      tables := tables + [table];
    }
  }
}
