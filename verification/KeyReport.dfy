/**
 The whole command of `CheckKey` in common/keytool.cpp and the report it prints. Key decoding
 is library code, so it is a parameter here.
 */
module KeyReport {
  import opened KeyPairing

  datatype Option<+T> = None | Some(value: T)

  /** The library: decoding keys, and whether a signature by one verifies with the other. */
  datatype Library = Library(decodeSecret: string -> Option<Secret>, decodePublic: string -> Public,
                             isPairOfKey: (Secret, Public, string) -> bool)

  datatype Outcome = Checked | NoPrivkey | NoPubkey | NoMessage

  /**
   A line of output: a bad private key, the frame around a private key's group, a pair, a
   private key with no pair, the heading over the public keys left over, and one of those.
   */
  datatype Entry = BadSecret(text: string) | Opened(secret: Secret) | Listed(secret: Secret, public: Public)
                 | Closed | Alone(secret: Secret) | Heading | Leftover(public: Public)

  function Lookup(settings: map<string, seq<string>>, key: string): seq<string> {
    if key in settings then settings[key] else []
  }

  function Secrets(lib: Library, texts: seq<string>): seq<Secret> {
    if texts == [] then []
    else
      var decoded := lib.decodeSecret(texts[|texts| - 1]);
      Secrets(lib, texts[..|texts| - 1]) + (if decoded.Some? then [decoded.value] else [])
  }

  function BadSecrets(lib: Library, texts: seq<string>): seq<Entry> {
    if texts == [] then []
    else
      var text := texts[|texts| - 1];
      BadSecrets(lib, texts[..|texts| - 1]) + (if lib.decodeSecret(text).Some? then [] else [BadSecret(text)])
  }

  function Publics(lib: Library, texts: seq<string>): seq<Public> {
    seq(|texts|, i requires 0 <= i < |texts| => lib.decodePublic(texts[i]))
  }

  function Pairs(lib: Library, message: string): Pairing {
    (secret, public) => lib.isPairOfKey(secret, public, message)
  }

  function ListedUnder(secret: Secret, group: seq<Public>): seq<Entry> {
    if group == [] then [] else ListedUnder(secret, group[..|group| - 1]) + [Listed(secret, group[|group| - 1])]
  }

  function LeftoverEntries(publics: seq<Public>): seq<Entry> {
    if publics == [] then [] else LeftoverEntries(publics[..|publics| - 1]) + [Leftover(publics[|publics| - 1])]
  }

  function LeftoverReport(publics: seq<Public>): seq<Entry> {
    if publics == [] then [] else [Heading] + LeftoverEntries(publics)
  }

  function KeyBlock(secret: Secret, group: seq<Public>): seq<Entry> {
    [Opened(secret)] + ListedUnder(secret, group) + [Closed] + (if group == [] then [Alone(secret)] else [])
  }

  /** The lines for the first `n` private keys. */
  function KeyEntries(secrets: seq<Secret>, groups: seq<seq<Public>>, n: nat): seq<Entry>
    requires n <= |secrets| == |groups|
  {
    if n == 0 then []
    else
      KeyEntries(secrets, groups, n - 1) + KeyBlock(secrets[n - 1], groups[n - 1])
  }

  // ---------- reading the report ----------

  /** The private keys that decode are taken in order. */
  lemma {:induction false} SecretsRead(lib: Library, texts: seq<string>) returns (places: seq<nat>)
    ensures |places| == |Secrets(lib, texts)|
    ensures forall a, b :: 0 <= a < b < |places| ==> places[a] < places[b]
    ensures forall a :: 0 <= a < |places| ==>
              places[a] < |texts| && lib.decodeSecret(texts[places[a]]) == Some(Secrets(lib, texts)[a])
    ensures forall i :: 0 <= i < |texts| ==> (i in places <==> lib.decodeSecret(texts[i]).Some?)
  {
    if texts == [] {
      places := [];
    } else {
      var init, last := texts[..|texts| - 1], |texts| - 1;
      var before := SecretsRead(lib, init);
      assert forall i :: 0 <= i < |init| ==> init[i] == texts[i];
      assert last !in before;
      places := before + if lib.decodeSecret(texts[last]).Some? then [last] else [];
    }
  }

  /** The others are reported in order. */
  lemma {:induction false} BadSecretsRead(lib: Library, texts: seq<string>) returns (places: seq<nat>)
    ensures |places| == |BadSecrets(lib, texts)|
    ensures forall a, b :: 0 <= a < b < |places| ==> places[a] < places[b]
    ensures forall a :: 0 <= a < |places| ==>
              places[a] < |texts| && BadSecrets(lib, texts)[a] == BadSecret(texts[places[a]])
    ensures forall i :: 0 <= i < |texts| ==> (i in places <==> lib.decodeSecret(texts[i]).None?)
  {
    if texts == [] {
      places := [];
    } else {
      var init, last := texts[..|texts| - 1], |texts| - 1;
      var before := BadSecretsRead(lib, init);
      assert forall i :: 0 <= i < |init| ==> init[i] == texts[i];
      assert last !in before;
      places := before + if lib.decodeSecret(texts[last]).None? then [last] else [];
    }
  }

  /**
   From `p` on the log shows a private key's group in order inside its frame, and after that the
   key alone exactly if the group is empty; what comes next starts at `q`.
   */
  ghost predicate BlockAt(log: seq<Entry>, p: nat, q: nat, secret: Secret, group: seq<Public>) {
    && q == p + |group| + (if group == [] then 3 else 2) <= |log|
    && log[p] == Opened(secret)
    && (forall j :: 0 <= j < |group| ==> log[p + 1 + j] == Listed(secret, group[j]))
    && log[p + 1 + |group|] == Closed
    && (group == [] ==> log[p + 2] == Alone(secret))
  }

  /** From `p` on the log shows the public keys left over, under a heading if there are any, and ends. */
  ghost predicate EndsAt(log: seq<Entry>, p: nat, left: seq<Public>) {
    && |log| == p + |left| + (if left == [] then 0 else 1)
    && (left != [] ==> log[p] == Heading)
    && forall j :: 0 <= j < |left| ==> log[p + 1 + j] == Leftover(left[j])
  }

  /** The blocks stand one after the other: the n-th from `at[n]` to `at[n + 1]`. */
  ghost predicate BlocksAt(log: seq<Entry>, at: seq<nat>, secrets: seq<Secret>, groups: seq<seq<Public>>)
    requires |secrets| == |groups|
  {
    && |at| == |secrets| + 1
    && forall n :: 0 <= n < |secrets| ==> BlockAt(log, at[n], at[n + 1], secrets[n], groups[n])
  }

  /** The report: the private keys that do not decode, a block for each that does, and what is left over. */
  ghost predicate IsReport(log: seq<Entry>, at: seq<nat>, bad: seq<Entry>, pairs: Pairing, secrets: seq<Secret>,
                           publics: seq<Public>)
  {
    && BlocksAt(log, at, secrets, Groups(pairs, secrets, |secrets|, publics))
    && bad <= log && at[0] == |bad|
    && EndsAt(log, at[|secrets|], Unclaimed(pairs, secrets, publics))
  }

  lemma {:induction false} ListedUnderAt(secret: Secret, group: seq<Public>)
    ensures |ListedUnder(secret, group)| == |group|
    ensures forall j :: 0 <= j < |group| ==> ListedUnder(secret, group)[j] == Listed(secret, group[j])
  {
    if group != [] {
      ListedUnderAt(secret, group[..|group| - 1]);
    }
  }

  lemma {:induction false} LeftoverEntriesAt(publics: seq<Public>)
    ensures |LeftoverEntries(publics)| == |publics|
    ensures forall j :: 0 <= j < |publics| ==> LeftoverEntries(publics)[j] == Leftover(publics[j])
  {
    if publics != [] {
      LeftoverEntriesAt(publics[..|publics| - 1]);
    }
  }

  /** A block stays one with entries before and after it. */
  lemma BlockMoves(before: seq<Entry>, log: seq<Entry>, after: seq<Entry>, p: nat, q: nat, secret: Secret,
                   group: seq<Public>)
    requires BlockAt(log, p, q, secret, group)
    ensures BlockAt(before + log + after, |before| + p, |before| + q, secret, group)
  {
    var whole := before + log + after;
    assert forall k :: 0 <= k < |log| ==> whole[|before| + k] == log[k];
  }

  lemma KeyBlockIsBlock(secret: Secret, group: seq<Public>)
    ensures BlockAt(KeyBlock(secret, group), 0, |KeyBlock(secret, group)|, secret, group)
  {
    ListedUnderAt(secret, group);
  }

  lemma KeyEntriesStep(secrets: seq<Secret>, groups: seq<seq<Public>>, n: nat)
    requires n < |secrets| == |groups|
    ensures KeyEntries(secrets, groups, n + 1) == KeyEntries(secrets, groups, n) + KeyBlock(secrets[n], groups[n])
  {
  }

  /** The log is the blocks of the first `n` private keys and nothing else. */
  ghost predicate FirstBlocksAt(log: seq<Entry>, at: seq<nat>, secrets: seq<Secret>, groups: seq<seq<Public>>, n: nat)
    requires n <= |secrets| == |groups|
  {
    && |at| == n + 1 && at[0] == 0 && at[n] == |log|
    && forall m :: 0 <= m < n ==> BlockAt(log, at[m], at[m + 1], secrets[m], groups[m])
  }

  lemma BlockKept(log: seq<Entry>, block: seq<Entry>, p: nat, q: nat, secret: Secret, group: seq<Public>)
    requires BlockAt(log, p, q, secret, group)
    ensures BlockAt(log + block, p, q, secret, group)
  {
    BlockMoves([], log, block, p, q, secret, group);
    assert [] + log + block == log + block;
  }

  lemma BlockAdded(log: seq<Entry>, block: seq<Entry>, secret: Secret, group: seq<Public>)
    requires BlockAt(block, 0, |block|, secret, group)
    ensures BlockAt(log + block, |log|, |log| + |block|, secret, group)
  {
    BlockMoves(log, block, [], 0, |block|, secret, group);
    assert log + block + [] == log + block;
  }

  lemma FirstBlocksExtend(log: seq<Entry>, at: seq<nat>, block: seq<Entry>, secrets: seq<Secret>,
                          groups: seq<seq<Public>>, n: nat)
    returns (at': seq<nat>)
    requires n < |secrets| == |groups| && FirstBlocksAt(log, at, secrets, groups, n)
    requires BlockAt(block, 0, |block|, secrets[n], groups[n])
    ensures FirstBlocksAt(log + block, at', secrets, groups, n + 1)
  {
    at' := at + [|log| + |block|];
    forall m | 0 <= m < n + 1
      ensures BlockAt(log + block, at'[m], at'[m + 1], secrets[m], groups[m])
    {
      if m < n {
        BlockKept(log, block, at[m], at[m + 1], secrets[m], groups[m]);
      } else {
        BlockAdded(log, block, secrets[n], groups[n]);
      }
    }
  }

  lemma KeyEntriesExtend(secrets: seq<Secret>, groups: seq<seq<Public>>, n: nat, at: seq<nat>) returns (at': seq<nat>)
    requires n < |secrets| == |groups|
    requires FirstBlocksAt(KeyEntries(secrets, groups, n), at, secrets, groups, n)
    ensures FirstBlocksAt(KeyEntries(secrets, groups, n + 1), at', secrets, groups, n + 1)
  {
    var log, block := KeyEntries(secrets, groups, n), KeyBlock(secrets[n], groups[n]);
    KeyBlockIsBlock(secrets[n], groups[n]);
    at' := FirstBlocksExtend(log, at, block, secrets, groups, n);
    KeyEntriesStep(secrets, groups, n);
  }

  lemma {:induction false} KeyEntriesAt(secrets: seq<Secret>, groups: seq<seq<Public>>, n: nat) returns (at: seq<nat>)
    requires n <= |secrets| == |groups|
    ensures FirstBlocksAt(KeyEntries(secrets, groups, n), at, secrets, groups, n)
  {
    if n == 0 {
      at := [0];
    } else {
      at := KeyEntriesAt(secrets, groups, n - 1);
      at := KeyEntriesExtend(secrets, groups, n - 1, at);
    }
  }

  lemma LeftoverReportEnds(before: seq<Entry>, left: seq<Public>)
    ensures EndsAt(before + LeftoverReport(left), |before|, left)
  {
    LeftoverEntriesAt(left);
  }

  /** The blocks stay blocks with entries before and after them. */
  lemma BlocksMove(before: seq<Entry>, log: seq<Entry>, after: seq<Entry>, at: seq<nat>, secrets: seq<Secret>,
                   groups: seq<seq<Public>>)
    returns (at': seq<nat>)
    requires |secrets| == |groups| && BlocksAt(log, at, secrets, groups) && at[0] == 0
    ensures BlocksAt(before + log + after, at', secrets, groups)
    ensures at'[0] == |before| && at'[|secrets|] == |before| + at[|secrets|]
  {
    at' := seq(|at|, n requires 0 <= n < |at| => |before| + at[n]);
    forall n | 0 <= n < |secrets|
      ensures BlockAt(before + log + after, at'[n], at'[n + 1], secrets[n], groups[n])
    {
      BlockMoves(before, log, after, at[n], at[n + 1], secrets[n], groups[n]);
    }
  }

  /** What the parts of the log make up is a report. */
  lemma PartsAreReport(bad: seq<Entry>, pairs: Pairing, secrets: seq<Secret>, publics: seq<Public>)
    returns (at: seq<nat>)
    ensures var groups := Groups(pairs, secrets, |secrets|, publics);
            var left := LeftoverReport(Unclaimed(pairs, secrets, publics));
            IsReport(bad + KeyEntries(secrets, groups, |secrets|) + left, at, bad, pairs, secrets, publics)
  {
    var groups, left := Groups(pairs, secrets, |secrets|, publics), Unclaimed(pairs, secrets, publics);
    var keys := KeyEntries(secrets, groups, |secrets|);
    var at0 := KeyEntriesAt(secrets, groups, |secrets|);
    at := BlocksMove(bad, keys, LeftoverReport(left), at0, secrets, groups);
    LeftoverReportEnds(bad + keys, left);
    BeginsWith(bad, keys, LeftoverReport(left));
  }

  lemma BeginsWith(a: seq<Entry>, b: seq<Entry>, c: seq<Entry>)
    ensures a <= a + b + c && |a + b| == |a| + |b|
  {
  }

  // ---------- every public key is in the report once ----------

  function Shows(e: Entry, p: Public): nat {
    if (e.Listed? || e.Leftover?) && e.public == p then 1 else 0
  }

  /** How often the log shows a public key. */
  function Shown(log: seq<Entry>, p: Public): nat {
    if log == [] then 0 else Shown(log[..|log| - 1], p) + Shows(log[|log| - 1], p)
  }

  lemma ShownExtend(log: seq<Entry>, e: Entry, p: Public)
    ensures Shown(log + [e], p) == Shown(log, p) + Shows(e, p)
  {
    assert (log + [e])[..|log|] == log;
  }

  lemma {:induction false} ShownConcat(a: seq<Entry>, b: seq<Entry>, p: Public)
    ensures Shown(a + b, p) == Shown(a, p) + Shown(b, p)
  {
    if b == [] {
      assert a + b == a;
    } else {
      var init, last := b[..|b| - 1], b[|b| - 1];
      ShownConcat(a, init, p);
      ShownExtend(a + init, last, p);
      assert a + b == a + init + [last];
    }
  }

  lemma CountExtend(group: seq<Public>, p: Public)
    requires group != []
    ensures multiset(group)[p] == multiset(group[..|group| - 1])[p] + if group[|group| - 1] == p then 1 else 0
  {
    assert group == group[..|group| - 1] + [group[|group| - 1]];
  }

  lemma {:induction false} ShowsNone(log: seq<Entry>, p: Public)
    requires forall i :: 0 <= i < |log| ==> log[i].BadSecret?
    ensures Shown(log, p) == 0
  {
    if log != [] {
      ShowsNone(log[..|log| - 1], p);
    }
  }

  lemma ShownInBad(lib: Library, texts: seq<string>, p: Public)
    ensures Shown(BadSecrets(lib, texts), p) == 0
  {
    var places := BadSecretsRead(lib, texts);
    ShowsNone(BadSecrets(lib, texts), p);
  }

  lemma {:induction false} ShownInListed(secret: Secret, group: seq<Public>, p: Public)
    ensures Shown(ListedUnder(secret, group), p) == multiset(group)[p]
  {
    if group != [] {
      var init, last := group[..|group| - 1], group[|group| - 1];
      ShownInListed(secret, init, p);
      ShownExtend(ListedUnder(secret, init), Listed(secret, last), p);
      CountExtend(group, p);
    }
  }

  lemma {:induction false} ShownInLeftover(publics: seq<Public>, p: Public)
    ensures Shown(LeftoverEntries(publics), p) == multiset(publics)[p]
  {
    if publics != [] {
      var init, last := publics[..|publics| - 1], publics[|publics| - 1];
      ShownInLeftover(init, p);
      ShownExtend(LeftoverEntries(init), Leftover(last), p);
      CountExtend(publics, p);
    }
  }

  lemma ShownInLeftoverReport(publics: seq<Public>, p: Public)
    ensures Shown(LeftoverReport(publics), p) == multiset(publics)[p]
  {
    if publics != [] {
      ShownInLeftover(publics, p);
      ShownExtend([], Heading, p);
      assert [] + [Heading] == [Heading];
      ShownConcat([Heading], LeftoverEntries(publics), p);
    }
  }

  lemma ShownInBlock(secret: Secret, group: seq<Public>, p: Public)
    ensures Shown(KeyBlock(secret, group), p) == multiset(group)[p]
  {
    var listed := ListedUnder(secret, group);
    var frame := [Opened(secret)] + listed;
    ShownInListed(secret, group, p);
    ShownExtend([], Opened(secret), p);
    assert [] + [Opened(secret)] == [Opened(secret)];
    ShownConcat([Opened(secret)], listed, p);
    ShownExtend(frame, Closed, p);
    ShownExtend(frame + [Closed], Alone(secret), p);
    assert frame + [Closed] + [] == frame + [Closed];
  }

  lemma {:induction false} ShownInKeys(secrets: seq<Secret>, groups: seq<seq<Public>>, n: nat, p: Public)
    requires n <= |secrets| == |groups|
    ensures Shown(KeyEntries(secrets, groups, n), p) == Flatten(groups[..n])[p]
  {
    if n > 0 {
      ShownInKeys(secrets, groups, n - 1, p);
      KeyEntriesStep(secrets, groups, n - 1);
      ShownInBlock(secrets[n - 1], groups[n - 1], p);
      ShownConcat(KeyEntries(secrets, groups, n - 1), KeyBlock(secrets[n - 1], groups[n - 1]), p);
      FlattenExtend(groups[..n - 1], groups[n - 1]);
      assert groups[..n - 1] + [groups[n - 1]] == groups[..n];
    }
  }

  lemma PartitionCounts(pairs: Pairing, secrets: seq<Secret>, publics: seq<Public>, p: Public)
    ensures Flatten(Groups(pairs, secrets, |secrets|, publics))[p] + multiset(Unclaimed(pairs, secrets, publics))[p]
         == multiset(publics)[p]
  {
    ReportIsPartition(pairs, secrets, |secrets|, publics);
    assert secrets[..|secrets|] == secrets;
    var a, b := Flatten(Groups(pairs, secrets, |secrets|, publics)), multiset(Unclaimed(pairs, secrets, publics));
    assert (a + b)[p] == a[p] + b[p];
  }

  lemma ShownInParts(a: seq<Entry>, b: seq<Entry>, c: seq<Entry>, p: Public)
    ensures Shown(a + b + c, p) == Shown(a, p) + Shown(b, p) + Shown(c, p)
  {
    ShownConcat(a, b, p);
    ShownConcat(a + b, c, p);
  }

  lemma ShownInAllKeys(pairs: Pairing, secrets: seq<Secret>, publics: seq<Public>, p: Public)
    ensures var groups := Groups(pairs, secrets, |secrets|, publics);
            Shown(KeyEntries(secrets, groups, |secrets|), p) == Flatten(groups)[p]
  {
    var groups := Groups(pairs, secrets, |secrets|, publics);
    ShownInKeys(secrets, groups, |secrets|, p);
    assert groups[..|secrets|] == groups;
  }

  /** The report shows every public key exactly as often as it was given. */
  lemma ReportShowsAllPublics(lib: Library, texts: seq<string>, pairs: Pairing, secrets: seq<Secret>,
                              publics: seq<Public>, p: Public)
    ensures var groups := Groups(pairs, secrets, |secrets|, publics);
            Shown(BadSecrets(lib, texts) + KeyEntries(secrets, groups, |secrets|)
                  + LeftoverReport(Unclaimed(pairs, secrets, publics)), p)
            == multiset(publics)[p]
  {
    var groups, left := Groups(pairs, secrets, |secrets|, publics), Unclaimed(pairs, secrets, publics);
    var bad, keys := BadSecrets(lib, texts), KeyEntries(secrets, groups, |secrets|);
    ShownInBad(lib, texts, p);
    ShownInAllKeys(pairs, secrets, publics, p);
    ShownInLeftoverReport(left, p);
    ShownInParts(bad, keys, LeftoverReport(left), p);
    PartitionCounts(pairs, secrets, publics, p);
  }

  // ---------- the command ----------

  /**
   The command: which setting is missing decides the error, in the order private keys,
   public keys, message; private keys that do not decode are reported and skipped.
   */
  method CheckKey(lib: Library, single: map<string, string>, multi: map<string, seq<string>>)
    returns (outcome: Outcome, log: seq<Entry>)
    ensures outcome == if "-privkey" !in single then NoPrivkey else if "-pubkey" !in single then NoPubkey
                       else if "-message" !in single then NoMessage else Checked
    ensures outcome.NoPrivkey? ==> log == []
    ensures outcome.NoPubkey? || outcome.NoMessage? ==> log == BadSecrets(lib, Lookup(multi, "-privkey"))
    ensures outcome.Checked? ==>
              var pairs := Pairs(lib, single["-message"]);
              var secrets, publics := Secrets(lib, Lookup(multi, "-privkey")), Publics(lib, Lookup(multi, "-pubkey"));
              log == BadSecrets(lib, Lookup(multi, "-privkey"))
                     + KeyEntries(secrets, Groups(pairs, secrets, |secrets|, publics), |secrets|)
                     + LeftoverReport(Unclaimed(pairs, secrets, publics))
    ensures outcome.Checked? ==>
              var pairs := Pairs(lib, single["-message"]);
              var secrets, publics := Secrets(lib, Lookup(multi, "-privkey")), Publics(lib, Lookup(multi, "-pubkey"));
              && (exists at :: IsReport(log, at, BadSecrets(lib, Lookup(multi, "-privkey")), pairs, secrets, publics))
              && forall p :: Shown(log, p) == multiset(publics)[p]
  {
    log := [];
    if "-privkey" !in single {
      return NoPrivkey, log;
    }
    var vSecret;
    vSecret, log := DecodeSecrets(lib, Lookup(multi, "-privkey"));
    if "-pubkey" !in single {
      return NoPubkey, log;
    }
    var vPublic := Publics(lib, Lookup(multi, "-pubkey"));
    if "-message" !in single {
      return NoMessage, log;
    }
    var pairs := Pairs(lib, single["-message"]);
    ghost var publics := vPublic;
    var groups;
    groups, vPublic := PairKeys(pairs, vSecret, vPublic);
    GroupsListed(pairs, vSecret, |vSecret|, publics);
    assert groups == Groups(pairs, vSecret, |vSecret|, publics);
    log := log + KeyEntries(vSecret, groups, |vSecret|) + LeftoverReport(vPublic);
    outcome := Checked;
    ghost var at := PartsAreReport(BadSecrets(lib, Lookup(multi, "-privkey")), pairs, vSecret, publics);
    forall p
      ensures Shown(log, p) == multiset(publics)[p]
    {
      ReportShowsAllPublics(lib, Lookup(multi, "-privkey"), pairs, vSecret, publics, p);
    }
  }

  method DecodeSecrets(lib: Library, texts: seq<string>) returns (secrets: seq<Secret>, log: seq<Entry>)
    ensures secrets == Secrets(lib, texts) && log == BadSecrets(lib, texts)
  {
    secrets, log := [], [];
    for n := 0 to |texts|
      invariant secrets == Secrets(lib, texts[..n]) && log == BadSecrets(lib, texts[..n])
    {
      assert texts[..n + 1][..n] == texts[..n];
      match lib.decodeSecret(texts[n])
      case Some(secret) => secrets := secrets + [secret];
      case None => log := log + [BadSecret(texts[n])];
    }
    assert texts[..|texts|] == texts;
  }
}
