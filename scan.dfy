/** The scan pipeline of main.go's processURLsConcurrently, as a sequential
    abstraction: the targets are deduplicated, each unique target is
    classified once, and the results arrive in a completion order that the
    worker pool decides. That order is a parameter: a permutation of the
    unique targets' indices. */
module Scan {
  import opened Types
  import Dedup
  import Classifier

  /** `order` lists each index below n exactly once. */
  predicate IsPermutation(order: seq<nat>, n: nat) {
    && |order| == n
    && (forall k :: 0 <= k < n ==> order[k] < n)
    && (forall k, l :: 0 <= k < l < n ==> order[k] != order[l])
    && (forall i :: 0 <= i < n ==> i in order)
  }

  /** The results of classifying every unique target, listed in completion
      order. */
  function CompletionOrder(network: Classifier.Network, unique: seq<string>, order: seq<nat>): (rs: seq<ScanResult>)
    requires IsPermutation(order, |unique|)
  {
    seq(|order|, k requires 0 <= k < |order| => Classifier.CheckFirebaseVulnerability(network, unique[order[k]]))
  }

  /** processURLsConcurrently: start `concurrency` workers over a queue that
      holds the deduplicated targets, then collect one result per target.
      With no worker (a concurrency of zero or less) nothing reads the queue
      and the collection is empty. */
  method ProcessUrlsConcurrently(config: Config, network: Classifier.Network, urls: seq<string>, order: seq<nat>)
    returns (results: seq<ScanResult>)
    requires IsPermutation(order, |Dedup.Unique(urls)|)
    ensures config.concurrency <= 0 ==> results == []
    ensures config.concurrency > 0 ==> results == CompletionOrder(network, Dedup.Unique(urls), order)
  {
    var uniqueUrls := Dedup.RemoveDuplicates(urls);
    results := [];
    if config.concurrency <= 0 {
      return;
    }
    for k := 0 to |order|
      invariant results == CompletionOrder(network, uniqueUrls, order)[..k]
    {
      results := results + [Classifier.CheckFirebaseVulnerability(network, uniqueUrls[order[k]])];
    }
  }

  /** Every input URL is scanned exactly once: the results are as many as the
      unique targets, no two results name the same target, and the targets
      named are exactly the input URLs. */
  lemma {:induction false} EachTargetOnce(network: Classifier.Network, urls: seq<string>, order: seq<nat>)
    requires IsPermutation(order, |Dedup.Unique(urls)|)
    ensures |CompletionOrder(network, Dedup.Unique(urls), order)| == |Dedup.Unique(urls)|
    ensures forall k, l :: 0 <= k < l < |order| ==>
              CompletionOrder(network, Dedup.Unique(urls), order)[k].url != CompletionOrder(network, Dedup.Unique(urls), order)[l].url
    ensures forall u :: u in urls <==> exists k :: 0 <= k < |order| && CompletionOrder(network, Dedup.Unique(urls), order)[k].url == u
  {
    var unique := Dedup.Unique(urls);
    var rs := CompletionOrder(network, unique, order);
    Dedup.UniqueElements(urls);
    Dedup.UniqueNoDuplicates(urls);
    assert forall k :: 0 <= k < |order| ==> rs[k].url == unique[order[k]];
    forall u | u in urls ensures exists k :: 0 <= k < |order| && rs[k].url == u {
      var i :| 0 <= i < |unique| && unique[i] == u;
      assert i in order;
      var k :| 0 <= k < |order| && order[k] == i;
      assert rs[k].url == u;
    }
  }

  /** Every result of a scan is well formed. */
  lemma ResultsWellFormed(network: Classifier.Network, unique: seq<string>, order: seq<nat>)
    requires IsPermutation(order, |unique|)
    ensures forall r :: r in CompletionOrder(network, unique, order) ==> WellFormed(r)
  {
  }
}
