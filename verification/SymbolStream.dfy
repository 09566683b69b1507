/** The coded symbols of a block: groups of 50, each coded with the table its selector names. */
module SymbolStream {
  import opened BitStream
  import opened CanonicalCode
  import CodeForest

  const G_SIZE := 50

  /** Tables and selectors under which the symbols syms can be coded. */
  ghost predicate Codable(lens: seq<seq<int>>, sel: seq<int>, syms: seq<int>) {
    && |syms| <= G_SIZE * |sel|
    && (forall k | 0 <= k < |sel| :: 0 <= sel[k] < |lens|)
    && (forall t | 0 <= t < |lens| :: PrefixLengths(lens[t]))
    && forall k, t | 0 <= k < |syms| && 0 <= t < |lens| :: 0 <= syms[k] < |lens[t]|
  }

  /** Lengths of a prefix code that is not over-full. */
  ghost predicate PrefixLengths(len: seq<int>) {
    && 1 <= |len| <= 258 && CodeForest.Kraft(len, |len|) <= 1.0
    && forall i | 0 <= i < |len| :: 1 <= len[i] <= LONGEST
  }

  /** The bits of the symbol at place k. */
  ghost function SymbolBits(lens: seq<seq<int>>, sel: seq<int>, syms: seq<int>, k: nat): seq<bool>
    requires Codable(lens, sel, syms) && k < |syms|
  {
    CodeBits(lens[sel[k / G_SIZE]], syms[k])
  }

  /** The bits of the first k symbols. */
  ghost function CodedTo(lens: seq<seq<int>>, sel: seq<int>, syms: seq<int>, k: nat): seq<bool>
    requires Codable(lens, sel, syms) && k <= |syms|
  {
    if k == 0 then [] else CodedTo(lens, sel, syms, k - 1) + SymbolBits(lens, sel, syms, k - 1)
  }

  /** The bits of the symbols from place k on. */
  ghost function CodedFrom(lens: seq<seq<int>>, sel: seq<int>, syms: seq<int>, k: nat): seq<bool>
    requires Codable(lens, sel, syms) && k <= |syms|
    decreases |syms| - k
  {
    if k == |syms| then [] else SymbolBits(lens, sel, syms, k) + CodedFrom(lens, sel, syms, k + 1)
  }

  lemma NoneCoded(lens: seq<seq<int>>, sel: seq<int>, syms: seq<int>)
    requires Codable(lens, sel, syms)
    ensures CodedTo(lens, sel, syms, 0) == []
  {}

  lemma {:induction false} CodedSplit(lens: seq<seq<int>>, sel: seq<int>, syms: seq<int>, k: nat)
    requires Codable(lens, sel, syms) && k <= |syms|
    ensures CodedTo(lens, sel, syms, k) + CodedFrom(lens, sel, syms, k) == CodedTo(lens, sel, syms, |syms|)
    decreases |syms| - k
  {
    hide Codable, SymbolBits;
    if k < |syms| {
      var a, b, c := CodedTo(lens, sel, syms, k), SymbolBits(lens, sel, syms, k), CodedFrom(lens, sel, syms, k + 1);
      CodedSplit(lens, sel, syms, k + 1);
      assert a + (b + c) == (a + b) + c;
    }
  }

  /** The symbol at place k is recognised at the front of the remaining bits. */
  lemma NextMatches(lens: seq<seq<int>>, sel: seq<int>, syms: seq<int>, k: nat, rest: seq<bool>)
    requires Codable(lens, sel, syms) && k < |syms|
    ensures k / G_SIZE < |sel| && 0 <= sel[k / G_SIZE] < |lens|
    ensures Matches(lens[sel[k / G_SIZE]], CodedFrom(lens, sel, syms, k) + rest, syms[k])
    ensures (CodedFrom(lens, sel, syms, k) + rest)[lens[sel[k / G_SIZE]][syms[k]]..] == CodedFrom(lens, sel, syms, k + 1) + rest
  {
    var L := lens[sel[k / G_SIZE]];
    assert PrefixLengths(L);
    var b, c := CodeBits(L, syms[k]), CodedFrom(lens, sel, syms, k + 1);
    assert (b + c) + rest == b + (c + rest);
    WrittenMatches(L, syms[k], c + rest);
  }
}
