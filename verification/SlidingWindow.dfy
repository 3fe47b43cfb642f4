/** Rate limits over a sliding window when the clocks of the claimants disagree. */
module SlidingWindow {
  import opened Prelude

  // A claim: its place in the order of commits, the claimant's own clock, and the limit it was held to.
  datatype Claim = Claim(number: nat, at: Instant, limit: nat)

  ghost predicate Numbered<K(!new)>(claims: map<K, Claim>) {
    forall j, k :: j in claims && k in claims && j != k ==> claims[j].number != claims[k].number
  }

  /** The claims committed no later than k whose clock is not older than k's by more than the width. */
  ghost function Before<K>(claims: map<K, Claim>, k: K, width: int): set<K>
    requires k in claims
  {
    set j | j in claims && claims[j].number <= claims[k].number && claims[j].at >= claims[k].at - width
  }

  ghost predicate Capped<K(!new)>(claims: map<K, Claim>, width: int) {
    forall k :: k in claims ==> |Before(claims, k, width)| <= claims[k].limit
  }

  ghost function Recent<K>(claims: map<K, Claim>, since: Instant): set<K> {
    set j | j in claims && claims[j].at >= since
  }

  ghost function Window<K>(claims: map<K, Claim>, start: Instant, width: int): set<K> {
    set j | j in claims && start <= claims[j].at <= start + width
  }

  lemma CappedShrinks<K(!new)>(claims: map<K, Claim>, fewer: map<K, Claim>, width: int)
    requires Capped(claims, width)
    requires forall k :: k in fewer ==> k in claims && fewer[k] == claims[k]
    ensures Capped(fewer, width)
  {
    forall k | k in fewer
      ensures |Before(fewer, k, width)| <= fewer[k].limit
    {
      SubsetSize(Before(fewer, k, width), Before(claims, k, width));
    }
  }

  /** A claim that finds fewer recent claims than its limit keeps every claim within its own limit. */
  lemma CappedGrows<K(!new)>(claims: map<K, Claim>, k: K, c: Claim, width: int)
    requires Capped(claims, width) && k !in claims
    requires forall j :: j in claims ==> claims[j].number < c.number
    requires |Recent(claims, c.at - width)| < c.limit
    ensures Capped(claims[k := c], width)
  {
    var more := claims[k := c];
    forall i | i in more
      ensures |Before(more, i, width)| <= more[i].limit
    {
      if i == k {
        assert Before(more, k, width) <= Recent(claims, c.at - width) + {k};
        SubsetSize(Before(more, k, width), Recent(claims, c.at - width) + {k});
      } else {
        assert Before(more, i, width) == Before(claims, i, width);
      }
    }
  }

  /** The claims of any window number at most the limit in force at the last of them to be committed. */
  lemma WindowBound<K(!new)>(claims: map<K, Claim>, start: Instant, width: int) returns (last: K)
    requires Numbered(claims) && Capped(claims, width)
    requires Window(claims, start, width) != {}
    ensures last in Window(claims, start, width)
    ensures forall j :: j in Window(claims, start, width) ==> claims[j].number <= claims[last].number
    ensures |Window(claims, start, width)| <= claims[last].limit
  {
    last := LastCommitted(claims, Window(claims, start, width));
    SubsetSize(Window(claims, start, width), Before(claims, last, width));
  }

  lemma {:induction false} LastCommitted<K>(claims: map<K, Claim>, s: set<K>) returns (last: K)
    requires s != {} && forall k :: k in s ==> k in claims
    ensures last in s && forall k :: k in s ==> claims[k].number <= claims[last].number
    decreases |s|
  {
    last := Pick(s);
    if s != {last} {
      assert s - {last} != {} && s == s - {last} + {last};
      var other := LastCommitted(claims, s - {last});
      if claims[other].number > claims[last].number {
        last := other;
      }
    }
  }
}
