/** The one domain entity, a traffic fine, keyed by its protocol number,
    and the persisted list of fines already announced. */
module Fines {

  /** The `Fine` record of index.ts. The six text fields are scraped
      verbatim (empty when their label is missing); `images` are local
      paths of downloaded evidence photos. */
  datatype Fine = Fine(
    protocolNumber: string,
    carNumber: string,
    date: string,
    violationCode: string,
    amount: string,
    totalAmount: string,
    images: seq<string>)

  /** Some fine in `fines` carries protocol number `key`. */
  ghost predicate HasKey(fines: seq<Fine>, key: string) {
    exists i :: 0 <= i < |fines| && fines[i].protocolNumber == key
  }

  /** No protocol number occurs twice in `fines`. */
  ghost predicate UniqueKeys(fines: seq<Fine>) {
    forall i, j :: 0 <= i < j < |fines| ==> fines[i].protocolNumber != fines[j].protocolNumber
  }

  /** `knownFines.some(f => f.protocolNumber === key)`: a linear scan. An
      empty key is compared like any other. */
  function AlreadyExists(known: seq<Fine>, key: string): (r: bool)
    ensures r <==> HasKey(known, key)
    decreases |known|
  {
    if |known| == 0 then false
    else if known[0].protocolNumber == key then true
    else
      var r := AlreadyExists(known[1..], key);
      assert forall i :: 1 <= i < |known| ==> known[i] == known[1..][i - 1];
      r
  }

  lemma HasKeyAppend(a: seq<Fine>, b: seq<Fine>, key: string)
    ensures HasKey(a + b, key) <==> HasKey(a, key) || HasKey(b, key)
  {
    if HasKey(b, key) {
      var i :| 0 <= i < |b| && b[i].protocolNumber == key;
      assert (a + b)[|a| + i] == b[i];
    }
    if HasKey(a, key) {
      var i :| 0 <= i < |a| && a[i].protocolNumber == key;
      assert (a + b)[i] == a[i];
    }
    if HasKey(a + b, key) {
      var i :| 0 <= i < |a + b| && (a + b)[i].protocolNumber == key;
      if i >= |a| {
        assert b[i - |a|] == (a + b)[i];
      }
    }
  }

  /** Appending fines whose keys are pairwise distinct and new keeps the
      keys of a list unique. */
  lemma AppendFreshKeepsUnique(a: seq<Fine>, b: seq<Fine>)
    requires UniqueKeys(b)
    requires forall k :: 0 <= k < |b| ==> !HasKey(a, b[k].protocolNumber)
    ensures UniqueKeys(a) ==> UniqueKeys(a + b)
  {
    var c := a + b;
    forall i, j | 0 <= i < j < |c| && UniqueKeys(a)
      ensures c[i].protocolNumber != c[j].protocolNumber
    {
      if j >= |a| {
        assert c[j] == b[j - |a|];
        if i >= |a| {
          assert c[i] == b[i - |a|];
        } else {
          assert c[i] == a[i];
        }
      }
    }
  }
}
