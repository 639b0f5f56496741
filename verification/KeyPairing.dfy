/**
 `CheckKey` in common/keytool.cpp: every private key takes the public keys it pairs with out
 of the list, and what is left is listed at the end. Whether two keys pair is decided by
 signature checks of the library, so it is a parameter here.
 */
module KeyPairing {

  datatype Secret = Secret(id: nat)

  datatype Public = Public(id: nat)

  /** Whether a private and a public key belong together. */
  type Pairing = (Secret, Public) -> bool

  // ---------- filtering ----------

  function Filter<T>(xs: seq<T>, keep: T -> bool): seq<T> {
    if xs == [] then []
    else Filter(xs[..|xs| - 1], keep) + (if keep(xs[|xs| - 1]) then [xs[|xs| - 1]] else [])
  }

  function Both<T>(f: T -> bool, g: T -> bool): T -> bool {
    x => f(x) && g(x)
  }

  function Not<T>(f: T -> bool): T -> bool {
    x => !f(x)
  }

  lemma FilterExtend<T>(xs: seq<T>, x: T, keep: T -> bool)
    ensures Filter(xs + [x], keep) == Filter(xs, keep) + (if keep(x) then [x] else [])
  {
    assert (xs + [x])[..|xs|] == xs;
  }

  /** Filtering twice keeps what passes both tests. */
  lemma {:induction false} FilterTwice<T>(xs: seq<T>, f: T -> bool, g: T -> bool)
    ensures Filter(Filter(xs, f), g) == Filter(xs, Both(f, g))
  {
    if xs != [] {
      var init, x := xs[..|xs| - 1], xs[|xs| - 1];
      FilterTwice(init, f, g);
      if f(x) {
        FilterExtend(Filter(init, f), x, g);
      } else {
        assert Filter(init, f) + [] == Filter(init, f);
      }
    }
  }

  lemma {:induction false} FilterAgree<T>(xs: seq<T>, f: T -> bool, g: T -> bool)
    requires forall i :: 0 <= i < |xs| ==> f(xs[i]) == g(xs[i])
    ensures Filter(xs, f) == Filter(xs, g)
  {
    if xs != [] {
      var init := xs[..|xs| - 1];
      assert forall i :: 0 <= i < |init| ==> init[i] == xs[i];
      FilterAgree(init, f, g);
    }
  }

  lemma {:induction false} FilterShrinks<T>(xs: seq<T>, f: T -> bool, g: T -> bool)
    requires forall i :: 0 <= i < |xs| ==> f(xs[i]) ==> g(xs[i])
    ensures |Filter(xs, f)| <= |Filter(xs, g)|
    ensures Filter(xs, f) == Filter(xs, g) ==> forall i :: 0 <= i < |xs| ==> f(xs[i]) == g(xs[i])
  {
    if xs != [] {
      var init := xs[..|xs| - 1];
      assert forall i :: 0 <= i < |init| ==> init[i] == xs[i];
      FilterShrinks(init, f, g);
      if Filter(xs, f) == Filter(xs, g) {
        assert |Filter(xs, f)| == |Filter(xs, g)|;
        assert f(xs[|xs| - 1]) == g(xs[|xs| - 1]);
        assert Filter(init, f) == Filter(xs, f)[..|Filter(init, f)|];
        assert Filter(init, g) == Filter(xs, g)[..|Filter(init, g)|];
      }
    }
  }

  lemma {:induction false} FilterSplits<T>(xs: seq<T>, f: T -> bool)
    ensures multiset(Filter(xs, f)) + multiset(Filter(xs, Not(f))) == multiset(xs)
  {
    if xs != [] {
      var init, x := xs[..|xs| - 1], xs[|xs| - 1];
      var yes, no := Filter(init, f), Filter(init, Not(f));
      FilterSplits(init, f);
      assert xs == init + [x];
      if f(x) {
        assert Filter(xs, f) == yes + [x] && Filter(xs, Not(f)) == no + [];
      } else {
        assert Filter(xs, f) == yes + [] && Filter(xs, Not(f)) == no + [x];
      }
    }
  }

  // ---------- who pairs with whom ----------

  /** Some private key in the list pairs with the public key. */
  predicate Claimed(pairs: Pairing, secrets: seq<Secret>, p: Public) {
    exists i :: 0 <= i < |secrets| && pairs(secrets[i], p)
  }

  function ClaimedBy(pairs: Pairing, secrets: seq<Secret>): Public -> bool {
    p => Claimed(pairs, secrets, p)
  }

  function PairedWith(pairs: Pairing, secret: Secret): Public -> bool {
    p => pairs(secret, p)
  }

  /** The public keys that pair with none of the private keys. */
  function Unclaimed(pairs: Pairing, secrets: seq<Secret>, publics: seq<Public>): seq<Public> {
    Filter(publics, Not(ClaimedBy(pairs, secrets)))
  }

  /** The public keys for which private key `n` is the first that pairs with them. */
  function FirstPairedWith(pairs: Pairing, secrets: seq<Secret>, n: nat, publics: seq<Public>): seq<Public>
    requires n < |secrets|
  {
    Filter(publics, Both(Not(ClaimedBy(pairs, secrets[..n])), PairedWith(pairs, secrets[n])))
  }

  lemma ClaimedExtend(pairs: Pairing, secrets: seq<Secret>, n: nat, p: Public)
    requires n < |secrets|
    ensures Claimed(pairs, secrets[..n + 1], p) <==> Claimed(pairs, secrets[..n], p) || pairs(secrets[n], p)
  {
    var shorter, longer := secrets[..n], secrets[..n + 1];
    if Claimed(pairs, shorter, p) {
      var i :| 0 <= i < |shorter| && pairs(shorter[i], p);
      assert longer[i] == shorter[i];
    }
    if pairs(secrets[n], p) {
      assert longer[n] == secrets[n];
    }
    if Claimed(pairs, longer, p) && !pairs(secrets[n], p) {
      var i :| 0 <= i < |longer| && pairs(longer[i], p);
      assert longer[i] == shorter[i];
    }
  }

  // ---------- the loops ----------

  /** One private key's pass over the list, erasing while iterating. */
  method ErasePaired(pairs: Pairing, secret: Secret, publics: seq<Public>)
    returns (listed: seq<Public>, rest: seq<Public>)
    ensures listed == Filter(publics, PairedWith(pairs, secret))
    ensures rest == Filter(publics, Not(PairedWith(pairs, secret)))
  {
    var vPublic, iter := publics, 0;
    ghost var seen := 0;
    ghost var yes, no := PairedWith(pairs, secret), Not(PairedWith(pairs, secret));
    listed := [];
    while iter < |vPublic|
      invariant 0 <= seen <= |publics| && 0 <= iter <= |vPublic|
      invariant vPublic[..iter] == Filter(publics[..seen], no) && vPublic[iter..] == publics[seen..]
      invariant listed == Filter(publics[..seen], yes)
      decreases |vPublic| - iter
    {
      assert vPublic[iter] == publics[seen];
      assert publics[..seen] + [publics[seen]] == publics[..seen + 1];
      FilterExtend(publics[..seen], publics[seen], no);
      FilterExtend(publics[..seen], publics[seen], yes);
      if pairs(secret, vPublic[iter]) {
        listed := listed + [vPublic[iter]];
        vPublic := vPublic[..iter] + vPublic[iter + 1..];
      } else {
        iter := iter + 1;
      }
      seen := seen + 1;
    }
    assert publics[..seen] == publics;
    rest := vPublic;
  }

  /** All private keys in turn. `groups[n]` is what is listed under the `n`-th. */
  method PairKeys(pairs: Pairing, secrets: seq<Secret>, publics: seq<Public>)
    returns (groups: seq<seq<Public>>, left: seq<Public>)
    ensures |groups| == |secrets|
    ensures forall n :: 0 <= n < |secrets| ==> groups[n] == FirstPairedWith(pairs, secrets, n, publics)
    ensures left == Unclaimed(pairs, secrets, publics)
  {
    groups, left := [], publics;
    NothingClaimed(pairs, publics);
    assert secrets[..0] == [];
    for n := 0 to |secrets|
      invariant |groups| == n
      invariant forall m :: 0 <= m < n ==> groups[m] == FirstPairedWith(pairs, secrets, m, publics)
      invariant left == Unclaimed(pairs, secrets[..n], publics)
    {
      PassTakesFirstPaired(pairs, secrets, n, publics);
      var listed;
      listed, left := ErasePaired(pairs, secrets[n], left);
      groups := groups + [listed];
    }
    assert secrets[..|secrets|] == secrets;
  }

  lemma {:induction false} NothingClaimed(pairs: Pairing, publics: seq<Public>)
    ensures Unclaimed(pairs, [], publics) == publics
  {
    if publics != [] {
      NothingClaimed(pairs, publics[..|publics| - 1]);
    }
  }

  /** What one pass lists and leaves, said of the original list. */
  lemma PassTakesFirstPaired(pairs: Pairing, secrets: seq<Secret>, n: nat, publics: seq<Public>)
    requires n < |secrets|
    ensures Filter(Unclaimed(pairs, secrets[..n], publics), PairedWith(pairs, secrets[n]))
         == FirstPairedWith(pairs, secrets, n, publics)
    ensures Filter(Unclaimed(pairs, secrets[..n], publics), Not(PairedWith(pairs, secrets[n])))
         == Unclaimed(pairs, secrets[..n + 1], publics)
  {
    var free, yes := Not(ClaimedBy(pairs, secrets[..n])), PairedWith(pairs, secrets[n]);
    var still := Not(ClaimedBy(pairs, secrets[..n + 1]));
    FilterTwice(publics, free, yes);
    FilterTwice(publics, free, Not(yes));
    forall i | 0 <= i < |publics|
      ensures Both(free, Not(yes))(publics[i]) == still(publics[i])
    {
      ClaimedExtend(pairs, secrets, n, publics[i]);
    }
    FilterAgree(publics, Both(free, Not(yes)), still);
  }

  // ---------- what the report promises ----------

  function Flatten(groups: seq<seq<Public>>): multiset<Public> {
    if groups == [] then multiset{} else Flatten(groups[..|groups| - 1]) + multiset(groups[|groups| - 1])
  }

  function Groups(pairs: Pairing, secrets: seq<Secret>, n: nat, publics: seq<Public>)
    : (groups: seq<seq<Public>>)
    requires n <= |secrets|
    ensures |groups| == n
  {
    if n == 0 then []
    else Groups(pairs, secrets, n - 1, publics) + [FirstPairedWith(pairs, secrets, n - 1, publics)]
  }

  ghost predicate IsPartition(pairs: Pairing, secrets: seq<Secret>, n: nat, publics: seq<Public>)
    requires n <= |secrets|
  {
    Flatten(Groups(pairs, secrets, n, publics)) + multiset(Unclaimed(pairs, secrets[..n], publics)) == multiset(publics)
  }

  /**
   The report is a partition: counted with repeats, every public key is listed either under
   exactly one private key or once among those left over.
   */
  lemma {:induction false} ReportIsPartition(pairs: Pairing, secrets: seq<Secret>, n: nat, publics: seq<Public>)
    requires n <= |secrets|
    ensures IsPartition(pairs, secrets, n, publics)
  {
    if n == 0 {
      NobodyClaims(pairs, secrets, publics);
    } else {
      ReportIsPartition(pairs, secrets, n - 1, publics);
      PartitionExtends(pairs, secrets, n - 1, publics);
    }
  }

  lemma PartitionExtends(pairs: Pairing, secrets: seq<Secret>, n: nat, publics: seq<Public>)
    requires n < |secrets| && IsPartition(pairs, secrets, n, publics)
    ensures IsPartition(pairs, secrets, n + 1, publics)
  {
    PassSplits(pairs, secrets, n, publics);
    FlattenExtend(Groups(pairs, secrets, n, publics), FirstPairedWith(pairs, secrets, n, publics));
    assert Groups(pairs, secrets, n + 1, publics)
        == Groups(pairs, secrets, n, publics) + [FirstPairedWith(pairs, secrets, n, publics)];
  }

  lemma NobodyClaims(pairs: Pairing, secrets: seq<Secret>, publics: seq<Public>)
    ensures Unclaimed(pairs, secrets[..0], publics) == publics
  {
    assert secrets[..0] == [];
    NothingClaimed(pairs, publics);
  }

  lemma PassSplits(pairs: Pairing, secrets: seq<Secret>, n: nat, publics: seq<Public>)
    requires n < |secrets|
    ensures multiset(FirstPairedWith(pairs, secrets, n, publics))
            + multiset(Unclaimed(pairs, secrets[..n + 1], publics))
         == multiset(Unclaimed(pairs, secrets[..n], publics))
  {
    PassTakesFirstPaired(pairs, secrets, n, publics);
    FilterSplits(Unclaimed(pairs, secrets[..n], publics), PairedWith(pairs, secrets[n]));
  }

  lemma FlattenExtend(groups: seq<seq<Public>>, group: seq<Public>)
    ensures Flatten(groups + [group]) == Flatten(groups) + multiset(group)
  {
    assert (groups + [group])[..|groups|] == groups;
  }

  /** What is left over does not depend on the order of the private keys, nor on repeats among them. */
  lemma LeftoverIgnoresOrder(pairs: Pairing, secrets1: seq<Secret>, secrets2: seq<Secret>, publics: seq<Public>)
    requires forall secret :: secret in secrets1 <==> secret in secrets2
    ensures Unclaimed(pairs, secrets1, publics) == Unclaimed(pairs, secrets2, publics)
  {
    forall i | 0 <= i < |publics|
      ensures Claimed(pairs, secrets1, publics[i]) == Claimed(pairs, secrets2, publics[i])
    {
      ClaimedByMembers(pairs, secrets1, secrets2, publics[i]);
      ClaimedByMembers(pairs, secrets2, secrets1, publics[i]);
    }
    FilterAgree(publics, Not(ClaimedBy(pairs, secrets1)), Not(ClaimedBy(pairs, secrets2)));
  }

  lemma ClaimedByMembers(pairs: Pairing, secrets1: seq<Secret>, secrets2: seq<Secret>, p: Public)
    requires forall secret :: secret in secrets1 ==> secret in secrets2
    ensures Claimed(pairs, secrets1, p) ==> Claimed(pairs, secrets2, p)
  {
    if Claimed(pairs, secrets1, p) {
      var i :| 0 <= i < |secrets1| && pairs(secrets1[i], p);
      assert secrets1[i] in secrets2;
    }
  }

  /** No public key pairs with two private keys of the list. */
  ghost predicate AtMostOnePartner(pairs: Pairing, secrets: seq<Secret>, publics: seq<Public>) {
    forall i, m, n :: 0 <= i < |publics| && 0 <= m < n < |secrets| ==>
      !(pairs(secrets[m], publics[i]) && pairs(secrets[n], publics[i]))
  }

  /**
   Each private key is shown with all the public keys it pairs with exactly when no public
   key pairs with two of them. A repeated private key is shown with none.
   */
  lemma GroupsCompleteIff(pairs: Pairing, secrets: seq<Secret>, publics: seq<Public>)
    ensures (forall n :: 0 <= n < |secrets| ==>
               FirstPairedWith(pairs, secrets, n, publics) == Filter(publics, PairedWith(pairs, secrets[n])))
       <==> AtMostOnePartner(pairs, secrets, publics)
  {
    if AtMostOnePartner(pairs, secrets, publics) {
      forall n | 0 <= n < |secrets|
        ensures FirstPairedWith(pairs, secrets, n, publics) == Filter(publics, PairedWith(pairs, secrets[n]))
      {
        var first := Both(Not(ClaimedBy(pairs, secrets[..n])), PairedWith(pairs, secrets[n]));
        forall i | 0 <= i < |publics|
          ensures first(publics[i]) == PairedWith(pairs, secrets[n])(publics[i])
        {
          assert forall m :: 0 <= m < n ==> secrets[..n][m] == secrets[m];
        }
        FilterAgree(publics, first, PairedWith(pairs, secrets[n]));
      }
    } else {
      var i, m, n :| 0 <= i < |publics| && 0 <= m < n < |secrets|
                     && pairs(secrets[m], publics[i]) && pairs(secrets[n], publics[i]);
      var first := Both(Not(ClaimedBy(pairs, secrets[..n])), PairedWith(pairs, secrets[n]));
      assert secrets[..n][m] == secrets[m];
      assert Claimed(pairs, secrets[..n], publics[i]);
      FilterShrinks(publics, first, PairedWith(pairs, secrets[n]));
      assert first(publics[i]) != PairedWith(pairs, secrets[n])(publics[i]);
    }
  }

  lemma {:induction false} GroupsListed(pairs: Pairing, secrets: seq<Secret>, n: nat, publics: seq<Public>)
    requires n <= |secrets|
    ensures forall m :: 0 <= m < n ==>
              Groups(pairs, secrets, n, publics)[m] == FirstPairedWith(pairs, secrets, m, publics)
  {
    if n > 0 {
      GroupsListed(pairs, secrets, n - 1, publics);
    }
  }

  // ---------- what the groups are ----------

  /** The elements at these places, in order. */
  ghost predicate StandsAt<T>(xs: seq<T>, ys: seq<T>, places: seq<nat>) {
    && |places| == |ys|
    && (forall a, b :: 0 <= a < b < |places| ==> places[a] < places[b])
    && (forall a :: 0 <= a < |places| ==> places[a] < |xs| && ys[a] == xs[places[a]])
  }

  /** The places of the elements that pass. */
  ghost predicate ArePlaces<T>(xs: seq<T>, keep: T -> bool, places: seq<nat>) {
    forall i :: 0 <= i < |xs| ==> (i in places <==> keep(xs[i]))
  }

  lemma StandsAtExtend<T>(xs: seq<T>, x: T, ys: seq<T>, places: seq<nat>)
    requires StandsAt(xs, ys, places)
    ensures StandsAt(xs + [x], ys, places) && StandsAt(xs + [x], ys + [x], places + [|xs|])
  {
  }

  lemma ArePlacesExtend<T>(xs: seq<T>, x: T, keep: T -> bool, places: seq<nat>)
    requires ArePlaces(xs, keep, places) && forall a :: 0 <= a < |places| ==> places[a] < |xs|
    ensures ArePlaces(xs + [x], keep, if keep(x) then places + [|xs|] else places)
  {
    assert |xs| !in places;
  }

  /** Filtering keeps exactly the elements that pass, in order. */
  lemma {:induction false} FilterStandsAt<T>(xs: seq<T>, keep: T -> bool) returns (places: seq<nat>)
    ensures StandsAt(xs, Filter(xs, keep), places) && ArePlaces(xs, keep, places)
  {
    if xs == [] {
      places := [];
    } else {
      var init, x := xs[..|xs| - 1], xs[|xs| - 1];
      var before := FilterStandsAt(init, keep);
      StandsAtExtend(init, x, Filter(init, keep), before);
      ArePlacesExtend(init, x, keep, before);
      assert init + [x] == xs && Filter(init, keep) + [] == Filter(init, keep);
      places := if keep(x) then before + [|init|] else before;
    }
  }

  /** Listed under a private key, in order, are the public keys that pair with it and with none before it. */
  lemma GroupReads(pairs: Pairing, secrets: seq<Secret>, n: nat, publics: seq<Public>) returns (places: seq<nat>)
    requires n < |secrets|
    ensures StandsAt(publics, FirstPairedWith(pairs, secrets, n, publics), places)
    ensures forall i :: 0 <= i < |publics| ==>
              (i in places
               <==> pairs(secrets[n], publics[i]) && forall m :: 0 <= m < n ==> !pairs(secrets[m], publics[i]))
  {
    var first := Both(Not(ClaimedBy(pairs, secrets[..n])), PairedWith(pairs, secrets[n]));
    places := FilterStandsAt(publics, first);
    forall i | 0 <= i < |publics|
      ensures i in places
         <==> pairs(secrets[n], publics[i]) && forall m :: 0 <= m < n ==> !pairs(secrets[m], publics[i])
    {
      ClaimedIff(pairs, secrets, n, publics[i]);
    }
  }

  /** Left over, in order, are the public keys that pair with no private key. */
  lemma LeftoverReads(pairs: Pairing, secrets: seq<Secret>, publics: seq<Public>) returns (places: seq<nat>)
    ensures StandsAt(publics, Unclaimed(pairs, secrets, publics), places)
    ensures forall i :: 0 <= i < |publics| ==>
              (i in places <==> forall m :: 0 <= m < |secrets| ==> !pairs(secrets[m], publics[i]))
  {
    places := FilterStandsAt(publics, Not(ClaimedBy(pairs, secrets)));
  }

  lemma ClaimedIff(pairs: Pairing, secrets: seq<Secret>, n: nat, p: Public)
    requires n <= |secrets|
    ensures Claimed(pairs, secrets[..n], p) <==> exists m :: 0 <= m < n && pairs(secrets[m], p)
  {
    if m :| 0 <= m < n && pairs(secrets[m], p) {
      assert secrets[..n][m] == secrets[m];
    }
  }
}
