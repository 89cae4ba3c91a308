/** The re-render check: every old number is still there, in order. */
module Subsequence {
  import opened Options

  /** An order-preserving embedding of `small` into `large`. */
  ghost predicate Embeds(small: seq<string>, large: seq<string>, at: seq<nat>)
  {
    && |at| == |small|
    && (forall i :: 0 <= i < |at| ==> at[i] < |large| && large[at[i]] == small[i])
    && (forall i, j :: 0 <= i < j < |at| ==> at[i] < at[j])
  }

  ghost predicate Embeddable(small: seq<string>, large: seq<string>)
  {
    exists at :: Embeds(small, large, at)
  }

  /** The greedy positions are the earliest: every embedding of the prefix ends no sooner. */
  ghost predicate Earliest(small: seq<string>, large: seq<string>, i: nat, used: nat)
    requires i <= |small|
  {
    forall at :: Embeds(small[..i], large, at) && i > 0 ==> at[i - 1] >= used - 1
  }

  lemma EmbedsPrefix(small: seq<string>, large: seq<string>, at: seq<nat>, i: nat)
    requires Embeds(small, large, at) && i <= |small|
    ensures Embeds(small[..i], large, at[..i])
  {
  }

  /** One element more cannot be placed before what the greedy scan has used. */
  lemma NextAtLeast(small: seq<string>, large: seq<string>, i: nat, used: nat, at: seq<nat>)
    requires i < |small| && Earliest(small, large, i, used) && (i == 0 ==> used == 0)
    requires Embeds(small[..i + 1], large, at)
    ensures used <= at[i] < |large| && large[at[i]] == small[i]
  {
    assert small[..i + 1][..i] == small[..i];
    EmbedsPrefix(small[..i + 1], large, at, i);
    if i > 0 {
      assert at[..i][i - 1] >= used - 1;
      assert at[i - 1] < at[i];
    }
    assert large[at[i]] == small[..i + 1][i];
  }

  /** A prefix that cannot be extended inside what is left cannot be embedded at all. */
  lemma NoRoom(small: seq<string>, large: seq<string>, i: nat, used: nat)
    requires i < |small| && Earliest(small, large, i, used) && (i == 0 ==> used == 0)
    requires forall k :: used <= k < |large| ==> large[k] != small[i]
    ensures !Embeddable(small[..i + 1], large)
  {
    var prefix := small[..i + 1];
    forall at ensures !Embeds(prefix, large, at) {
      if Embeds(prefix, large, at) { NextAtLeast(small, large, i, used, at); }
    }
  }

  /** `None` exactly when `small` embeds in `large`; otherwise the first index that fails:
    everything before it embeds, it does not. */
  method FirstMissing(small: seq<string>, large: seq<string>) returns (missing: Option<nat>)
    ensures missing.None? <==> Embeddable(small, large)
    ensures missing.Some? ==> missing.value < |small|
    ensures missing.Some? ==>
      Embeddable(small[..missing.value], large) && !Embeddable(small[..missing.value + 1], large)
  {
    var used := 0;
    ghost var at: seq<nat> := [];
    for i := 0 to |small|
      invariant 0 <= used <= |large|
      invariant Embeds(small[..i], large, at) && forall j :: 0 <= j < i ==> at[j] < used
      invariant Earliest(small, large, i, used) && (i == 0 ==> used == 0)
    {
      ghost var from := used;
      while used < |large| && large[used] != small[i]
        invariant from <= used <= |large|
        invariant forall k :: from <= k < used ==> large[k] != small[i]
      {
        used := used + 1;
      }
      if used == |large| {
        NoRoom(small, large, i, from);
        PrefixesEmbed(small, large, i + 1);
        return Some(i);
      }
      StillEarliest(small, large, i, from, used);
      at := at + [used];
      used := used + 1;
    }
    assert small[..|small|] == small;
    return None;
  }

  lemma PrefixesEmbed(small: seq<string>, large: seq<string>, i: nat)
    requires i <= |small|
    ensures Embeddable(small, large) ==> Embeddable(small[..i], large)
  {
    if at :| Embeds(small, large, at) { EmbedsPrefix(small, large, at, i); }
  }

  lemma StillEarliest(small: seq<string>, large: seq<string>, i: nat, from: nat, used: nat)
    requires i < |small| && from <= used < |large| && Earliest(small, large, i, from) && (i == 0 ==> from == 0)
    requires forall k :: from <= k < used ==> large[k] != small[i]
    ensures Earliest(small, large, i + 1, used + 1)
  {
    var prefix := small[..i + 1];
    forall at | Embeds(prefix, large, at) ensures at[i] >= used {
      NextAtLeast(small, large, i, from, at);
    }
  }
}
