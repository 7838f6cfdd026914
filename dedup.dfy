/** Deduplication of scan targets (main.go's removeDuplicates): the first
    occurrence of each target is kept, in input order. */
module Dedup {

  predicate NoDuplicates(s: seq<string>) {
    forall i, j :: 0 <= i < j < |s| ==> s[i] != s[j]
  }

  /** The specification of removeDuplicates: the prefix's result, extended
      by the last element when that element has not been kept already. */
  function Unique(s: seq<string>): (r: seq<string>)
    ensures forall x :: x in r ==> x in s
    decreases |s|
  {
    if s == [] then []
    else
      var kept := Unique(s[..|s| - 1]);
      if s[|s| - 1] in kept then kept else kept + [s[|s| - 1]]
  }

  /** The index of the first occurrence of `x` in `s`. */
  function FirstIndex(s: seq<string>, x: string): (k: nat)
    requires x in s
    ensures k < |s| && s[k] == x && x !in s[..k]
  {
    if s[0] == x then 0 else 1 + FirstIndex(s[1..], x)
  }

  /** Appending an element does not move the first occurrence of anything
      already present. */
  lemma {:induction false} FirstIndexSnoc(s: seq<string>, y: string, x: string)
    requires x in s
    ensures FirstIndex(s + [y], x) == FirstIndex(s, x)
  {
    if s[0] != x {
      assert (s + [y])[1..] == s[1..] + [y];
      FirstIndexSnoc(s[1..], y, x);
    }
  }

  /** Unique(s) holds exactly the elements of s. */
  lemma {:induction false} UniqueElements(s: seq<string>)
    ensures forall x :: x in Unique(s) <==> x in s
    decreases |s|
  {
    if s != [] {
      var init := s[..|s| - 1];
      UniqueElements(init);
      assert s == init + [s[|s| - 1]];
    }
  }

  /** Unique(s) repeats no element. */
  lemma {:induction false} UniqueNoDuplicates(s: seq<string>)
    ensures NoDuplicates(Unique(s))
    decreases |s|
  {
    if s != [] {
      UniqueNoDuplicates(s[..|s| - 1]);
    }
  }

  /** Unique(s) lists its elements in the order of their first occurrence
      in s. With UniqueElements and UniqueNoDuplicates this determines
      Unique(s): it is the subsequence of first occurrences. */
  lemma {:induction false} UniqueFirstOccurrenceOrder(s: seq<string>)
    ensures forall i, j :: 0 <= i < j < |Unique(s)| ==>
              FirstIndex(s, Unique(s)[i]) < FirstIndex(s, Unique(s)[j])
    decreases |s|
  {
    UniqueElements(s);
    if s != [] {
      var init, last := s[..|s| - 1], s[|s| - 1];
      assert s == init + [last];
      UniqueFirstOccurrenceOrder(init);
      UniqueElements(init);
      var kept := Unique(init);
      var u := Unique(s);
      forall i, j | 0 <= i < j < |u| ensures FirstIndex(s, u[i]) < FirstIndex(s, u[j]) {
        assert u[i] == kept[i] && u[i] in init;
        FirstIndexSnoc(init, last, u[i]);
        if j < |kept| {
          assert u[j] == kept[j] && u[j] in init;
          FirstIndexSnoc(init, last, u[j]);
        } else {
          assert u[j] == last && last !in init;
          assert s[..|init|] == init;
        }
      }
    }
  }

  /** A list without repetitions is its own deduplication, so deduplicating
      twice changes nothing. */
  lemma {:induction false} UniqueOfDistinct(s: seq<string>)
    requires NoDuplicates(s)
    ensures Unique(s) == s
    decreases |s|
  {
    if s != [] {
      var init := s[..|s| - 1];
      UniqueOfDistinct(init);
      UniqueElements(init);
      assert s == init + [s[|s| - 1]];
    }
  }

  lemma UniqueIdempotent(s: seq<string>)
    ensures Unique(Unique(s)) == Unique(s)
  {
    UniqueNoDuplicates(s);
    UniqueOfDistinct(Unique(s));
  }

  /** Go's `seen[url]`: a missing key reads as false. */
  function Seen(seen: map<string, bool>, x: string): bool {
    x in seen && seen[x]
  }

  /** removeDuplicates: one pass that records every kept element in `seen`
      and appends an element only when it has not been seen. */
  method RemoveDuplicates(urls: seq<string>) returns (unique: seq<string>)
    ensures unique == Unique(urls)
  {
    var seen: map<string, bool> := map[];
    unique := [];
    for i := 0 to |urls|
      invariant unique == Unique(urls[..i])
      invariant forall x :: Seen(seen, x) <==> x in unique
    {
      var url := urls[i];
      assert urls[..i + 1] == urls[..i] + [url];
      if !Seen(seen, url) {
        seen := seen[url := true];
        unique := unique + [url];
      }
    }
    assert urls[..|urls|] == urls;
  }
}
