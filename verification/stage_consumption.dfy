/**
  Turning a batch of ready stages into credentials of one group, inside one transaction.
*/
module StageConsumption {
  import opened Wrappers
  import opened StageModel

  datatype AuthState = Healthy | Refreshing | ReauthorizationRequired | RefreshUnknown

  predicate Replaceable(s: AuthState) {
    s == ReauthorizationRequired || s == RefreshUnknown
  }

  datatype Credential = Credential(
    group: nat, identity: string, data: string, fingerprint: string, version: nat, state: AuthState)

  type Credentials = map<nat, Credential>

  datatype Fault = NotReady | AlreadyConsumed | Mismatch | Overdue | DuplicateIdentity | DuplicateResource
                   | VersionConflict | Unavailable

  // What a payload decrypts and parses to.
  datatype Secret = Secret(identity: string, data: string, fingerprint: string)

  // A stage row as read at the start of the transaction.
  datatype Loaded = Loaded(id: string, row: Stage)

  datatype Existing = Existing(row: nat, version: nat)

  // ---- what the batch asks for -----------------------------------------------------------

  predicate Apart(batch: seq<Loaded>) {
    forall i, j :: 0 <= i < j < |batch| ==> batch[i].id != batch[j].id
  }

  // The database's unique index: one credential per identity in a group.
  predicate Unique(c: Credentials) {
    forall a, b :: a in c && b in c && c[a].group == c[b].group && c[a].identity == c[b].identity ==> a == b
  }

  predicate Has(c: Credentials, group: nat, identity: string, r: nat) {
    r in c && c[r].group == group && c[r].identity == identity
  }

  ghost predicate Occupied(c: Credentials, group: nat, identity: string) {
    exists r :: Has(c, group, identity, r) && c[r].state in {Healthy, Refreshing}
  }

  // An earlier stage of the batch has the same identity.
  ghost predicate Repeated(batch: seq<Loaded>, i: nat)
    requires i < |batch|
  {
    exists j :: 0 <= j < i && batch[j].row.identity == batch[i].row.identity
  }

  ghost predicate Skipped(c: Credentials, group: nat, batch: seq<Loaded>, i: nat)
    requires i < |batch|
  {
    Occupied(c, group, batch[i].row.identity) || Repeated(batch, i)
  }

  ghost function SkippedIds(c: Credentials, group: nat, batch: seq<Loaded>): seq<string> {
    if batch == [] then []
    else
      var n := |batch| - 1;
      SkippedIds(c, group, batch[..n]) + if Skipped(c, group, batch, n) then [batch[n].id] else []
  }

  lemma {:induction false} SkippedMembers(c: Credentials, group: nat, batch: seq<Loaded>, id: string)
    ensures id in SkippedIds(c, group, batch) <==>
            exists i :: 0 <= i < |batch| && batch[i].id == id && Skipped(c, group, batch, i)
  {
    if batch != [] {
      var n := |batch| - 1;
      SkippedMembers(c, group, batch[..n], id);
      SkippedAlike(c, group, batch, n);
      hide Skipped;
    }
  }

  // Whether a stage is skipped depends only on the stages before it.
  lemma SkippedAlike(c: Credentials, group: nat, batch: seq<Loaded>, n: nat)
    requires n <= |batch|
    ensures forall i :: 0 <= i < n ==> (Skipped(c, group, batch[..n], i) <==> Skipped(c, group, batch, i))
  {
    hide Occupied;
    forall i | 0 <= i < n ensures Repeated(batch[..n], i) <==> Repeated(batch, i) {
    }
  }

  ghost predicate Names(batch: seq<Loaded>, identity: string) {
    exists i :: 0 <= i < |batch| && batch[i].row.identity == identity
  }

  // The secret that an identity of the batch ends up with is its first stage's.
  ghost predicate Carries(open: string -> Option<Secret>, batch: seq<Loaded>, c: Credential) {
    exists i :: && 0 <= i < |batch| && !Repeated(batch, i) && batch[i].row.identity == c.identity
                && open(batch[i].row.payload) == Some(Secret(c.identity, c.data, c.fingerprint))
  }

  // ---- the outcome -----------------------------------------------------------------------

  // A credential that was there: repaired if it was broken and the batch names it, else untouched.
  ghost predicate KeptOrRepaired(open: string -> Option<Secret>, group: nat, batch: seq<Loaded>, was: Credential, now: Credential) {
    if was.group == group && was.state in {ReauthorizationRequired, RefreshUnknown} && Names(batch, was.identity) then
      && now.group == group && now.identity == was.identity
      && now.version == was.version + 1 && now.state == Healthy
      && Carries(open, batch, now)
    else now == was
  }

  // A credential that was not there: for an identity of the batch that the group did not have.
  ghost predicate Added(open: string -> Option<Secret>, group: nat, batch: seq<Loaded>, before: Credentials, now: Credential) {
    && now.group == group && now.version == 1 && now.state == Healthy
    && Names(batch, now.identity) && Carries(open, batch, now)
    && forall r :: !Has(before, group, now.identity, r)
  }

  ghost predicate Present(c: Credentials, group: nat, identity: string) {
    exists r :: Has(c, group, identity, r)
  }

  ghost predicate AllPresent(group: nat, batch: seq<Loaded>, c: Credentials) {
    forall identity :: Names(batch, identity) ==> Present(c, group, identity)
  }

  ghost predicate Settled(open: string -> Option<Secret>, group: nat, batch: seq<Loaded>, before: Credentials, after: Credentials) {
    && (forall r :: r in before ==> r in after && KeptOrRepaired(open, group, batch, before[r], after[r]))
    && (forall r :: r in after && r !in before ==> Added(open, group, batch, before, after[r]))
    && AllPresent(group, batch, after)
    && Unique(after)
  }

  ghost predicate Listed(batch: seq<Loaded>, id: string) {
    exists i :: 0 <= i < |batch| && batch[i].id == id
  }

  predicate ItemConsumed(group: nat, at: int, item: Loaded, before: map<string, Stage>, after: map<string, Stage>) {
    && item.id in before && before[item.id] == item.row && item.id in after
    && Some(after[item.id]) == Consume(item.row, group, at)
  }

  // The batch's stages are consumed by the group, all others are as they were.
  ghost predicate ConsumedBy(group: nat, at: int, batch: seq<Loaded>, before: map<string, Stage>, after: map<string, Stage>) {
    && after.Keys == before.Keys
    && (forall i :: 0 <= i < |batch| ==> ItemConsumed(group, at, batch[i], before, after))
    && (forall id :: id in before && !Listed(batch, id) ==> after[id] == before[id])
  }

  // Exactly one credential of the group carries each identity of the batch.
  lemma ExactlyOne(open: string -> Option<Secret>, group: nat, batch: seq<Loaded>,
                   before: Credentials, after: Credentials, i: nat)
    requires Settled(open, group, batch, before, after) && i < |batch|
    ensures exists r :: Has(after, group, batch[i].row.identity, r) &&
                        forall q :: Has(after, group, batch[i].row.identity, q) ==> q == r
  {
    assert Names(batch, batch[i].row.identity);
    assert Present(after, group, batch[i].row.identity);
  }

  // ---- one stage at a time ---------------------------------------------------------------

  lemma NamesNext(batch: seq<Loaded>, i: nat, identity: string)
    requires i < |batch|
    ensures Names(batch[..i + 1], identity) <==> Names(batch[..i], identity) || identity == batch[i].row.identity
    ensures Repeated(batch, i) <==> Names(batch[..i], batch[i].row.identity)
  {
    if Names(batch[..i], identity) {
      var j :| 0 <= j < i && batch[..i][j].row.identity == identity;
      assert batch[..i + 1][j].row.identity == identity;
    }
    if identity == batch[i].row.identity {
      assert batch[..i + 1][i].row.identity == identity;
    }
    if Repeated(batch, i) {
      var j :| 0 <= j < i && batch[j].row.identity == batch[i].row.identity;
      assert batch[..i][j].row.identity == batch[i].row.identity;
    }
  }

  lemma CarriesNext(open: string -> Option<Secret>, batch: seq<Loaded>, i: nat, c: Credential)
    requires i < |batch|
    ensures Carries(open, batch[..i], c) ==> Carries(open, batch[..i + 1], c)
    ensures !Repeated(batch, i) && batch[i].row.identity == c.identity &&
            open(batch[i].row.payload) == Some(Secret(c.identity, c.data, c.fingerprint)) ==>
              Carries(open, batch[..i + 1], c)
  {
    var next := batch[..i + 1];
    assert forall j :: 0 <= j <= i ==> (Repeated(next, j) <==> Repeated(batch, j));
    if Carries(open, batch[..i], c) {
      var j :| 0 <= j < i && !Repeated(batch[..i], j) && batch[j].row.identity == c.identity
               && open(batch[j].row.payload) == Some(Secret(c.identity, c.data, c.fingerprint));
      assert !Repeated(next, j) && next[j] == batch[j];
    }
    assert next[i] == batch[i];
  }

  // Rows of other identities do not notice the next stage.
  lemma OthersNext(open: string -> Option<Secret>, group: nat, batch: seq<Loaded>, i: nat,
                   before: Credentials, after: Credentials, r: nat)
    requires i < |batch| && Settled(open, group, batch[..i], before, after) && r in after
    requires after[r].identity != batch[i].row.identity || after[r].group != group || Repeated(batch, i)
             || (r in before && !Replaceable(before[r].state))
    ensures r in before ==> KeptOrRepaired(open, group, batch[..i + 1], before[r], after[r])
    ensures r !in before ==> Added(open, group, batch[..i + 1], before, after[r])
  {
    hide Carries, Names, Repeated;
    NamesNext(batch, i, after[r].identity);
    CarriesNext(open, batch, i, after[r]);
    if r in before {
      assert KeptOrRepaired(open, group, batch[..i], before[r], after[r]);
    } else {
      assert Added(open, group, batch[..i], before, after[r]);
    }
  }

  lemma SettleSkipped(open: string -> Option<Secret>, group: nat, batch: seq<Loaded>, i: nat,
                      before: Credentials, after: Credentials)
    requires i < |batch| && Unique(before) && Settled(open, group, batch[..i], before, after)
    requires Skipped(before, group, batch, i)
    ensures Settled(open, group, batch[..i + 1], before, after)
  {
    hide Carries, Names, KeptOrRepaired, Added, Repeated;
    var identity := batch[i].row.identity;
    NamesNext(batch, i, identity);
    if !Repeated(batch, i) {
      var r :| Has(before, group, identity, r) && !Replaceable(before[r].state);
      KeptSame(open, group, batch[..i], before[r], after[r]);
      assert Has(after, group, identity, r);
    }
    forall r | r in after
      ensures r in before ==> KeptOrRepaired(open, group, batch[..i + 1], before[r], after[r])
      ensures r !in before ==> Added(open, group, batch[..i + 1], before, after[r])
    {
      OthersNext(open, group, batch, i, before, after, r);
    }
    var next := batch[..i + 1];
    forall x | Names(next, x) ensures Present(after, group, x) {
      NamesNext(batch, i, x);
    }
  }

  lemma KeptSame(open: string -> Option<Secret>, group: nat, batch: seq<Loaded>, was: Credential, now: Credential)
    requires KeptOrRepaired(open, group, batch, was, now)
    ensures now.group == was.group && now.identity == was.identity
    ensures !Replaceable(was.state) || !Names(batch, was.identity) || was.group != group ==> now == was
  {
  }

  // The credential that a stage not skipped leaves behind.
  predicate Delivers(open: string -> Option<Secret>, group: nat, item: Loaded, c: Credential) {
    && c.group == group && c.identity == item.row.identity && c.state == Healthy
    && open(item.row.payload) == Some(Secret(c.identity, c.data, c.fingerprint))
  }

  lemma SettleRepaired(open: string -> Option<Secret>, group: nat, batch: seq<Loaded>, i: nat,
                       before: Credentials, after: Credentials, r: nat, c: Credential)
    requires i < |batch| && Unique(before) && Settled(open, group, batch[..i], before, after)
    requires !Repeated(batch, i) && Delivers(open, group, batch[i], c)
    requires Has(before, group, batch[i].row.identity, r) && Replaceable(before[r].state)
    requires c.version == before[r].version + 1
    ensures Settled(open, group, batch[..i + 1], before, after[r := c])
  {
    hide Carries, Names, KeptOrRepaired, Added, Repeated, Settled;
    assert r in after && after[r] == before[r] by { Untouched(open, group, batch, i, before, after, r); }
    SettleAt(open, group, batch, i, before, after, r, c);
    RepairedFits(open, group, batch, i, before[r], c);
    UniqueUpdate(open, group, batch, i, before, after, r, c);
    SettledFrom(open, group, batch[..i + 1], before, after[r := c]);
  }

  lemma Untouched(open: string -> Option<Secret>, group: nat, batch: seq<Loaded>, i: nat,
                  before: Credentials, after: Credentials, r: nat)
    requires i < |batch| && Settled(open, group, batch[..i], before, after) && !Repeated(batch, i)
    requires Has(before, group, batch[i].row.identity, r)
    ensures r in after && after[r] == before[r]
  {
    NamesNext(batch, i, before[r].identity);
  }

  // No row but r can have the identity that comes next.
  lemma NoOther(open: string -> Option<Secret>, group: nat, batch: seq<Loaded>, i: nat,
                before: Credentials, after: Credentials, q: nat)
    requires i < |batch| && Settled(open, group, batch[..i], before, after) && !Repeated(batch, i)
    requires Has(after, group, batch[i].row.identity, q)
    ensures Has(before, group, batch[i].row.identity, q)
  {
    hide Carries, Names, Repeated;
    NamesNext(batch, i, batch[i].row.identity);
    if q in before {
      KeptSame(open, group, batch[..i], before[q], after[q]);
    }
  }

  lemma SettleAt(open: string -> Option<Secret>, group: nat, batch: seq<Loaded>, i: nat,
                 before: Credentials, after: Credentials, r: nat, c: Credential)
    requires i < |batch| && Unique(before) && Settled(open, group, batch[..i], before, after) && !Repeated(batch, i)
    requires c.group == group && c.identity == batch[i].row.identity
    requires forall q :: Has(before, group, batch[i].row.identity, q) ==> q == r
    requires r in after ==> Has(before, group, batch[i].row.identity, r)
    ensures forall q :: q in after && q != r && q in before ==>
                          KeptOrRepaired(open, group, batch[..i + 1], before[q], after[q])
    ensures forall q :: q in after && q != r && q !in before ==> Added(open, group, batch[..i + 1], before, after[q])
    ensures AllPresent(group, batch[..i + 1], after[r := c])
    ensures before.Keys <= after.Keys
  {
    hide Carries, Names, KeptOrRepaired, Added, Repeated;
    forall q | q in after && q != r
      ensures q in before ==> KeptOrRepaired(open, group, batch[..i + 1], before[q], after[q])
      ensures q !in before ==> Added(open, group, batch[..i + 1], before, after[q])
    {
      if after[q].identity == batch[i].row.identity && after[q].group == group {
        NoOther(open, group, batch, i, before, after, q);
      }
      OthersNext(open, group, batch, i, before, after, q);
    }
    var next, filled := batch[..i + 1], after[r := c];
    forall x | Names(next, x) ensures Present(filled, group, x) {
      NamesNext(batch, i, x);
      if x == batch[i].row.identity {
        assert Has(filled, group, x, r);
      } else {
        assert Present(after, group, x);
        var q :| Has(after, group, x, q);
        if q == r {
          RowIdentity(open, group, batch[..i], before, after, q);
        }
        assert Has(filled, group, x, q);
      }
    }
  }

  lemma RowIdentity(open: string -> Option<Secret>, group: nat, batch: seq<Loaded>,
                    before: Credentials, after: Credentials, q: nat)
    requires Settled(open, group, batch, before, after) && q in before
    ensures q in after && after[q].group == before[q].group && after[q].identity == before[q].identity
  {
  }

  lemma RepairedFits(open: string -> Option<Secret>, group: nat, batch: seq<Loaded>, i: nat, was: Credential, c: Credential)
    requires i < |batch| && !Repeated(batch, i) && Delivers(open, group, batch[i], c)
    requires was.group == group && was.identity == batch[i].row.identity && Replaceable(was.state)
    requires c.version == was.version + 1
    ensures KeptOrRepaired(open, group, batch[..i + 1], was, c)
  {
    hide Carries, Names, Repeated;
    NamesNext(batch, i, c.identity);
    CarriesNext(open, batch, i, c);
  }

  lemma UniqueUpdate(open: string -> Option<Secret>, group: nat, batch: seq<Loaded>, i: nat,
                     before: Credentials, after: Credentials, r: nat, c: Credential)
    requires i < |batch| && Settled(open, group, batch[..i], before, after) && !Repeated(batch, i)
    requires c.group == group && c.identity == batch[i].row.identity
    requires forall q :: Has(before, group, batch[i].row.identity, q) ==> q == r
    ensures Unique(after[r := c])
  {
    hide Carries, Names, KeptOrRepaired, Added, Repeated;
    forall q | q in after && q != r && after[q].group == group && after[q].identity == c.identity
      ensures false
    {
      NoOther(open, group, batch, i, before, after, q);
    }
  }

  lemma SettledFrom(open: string -> Option<Secret>, group: nat, batch: seq<Loaded>, before: Credentials, after: Credentials)
    requires before.Keys <= after.Keys && Unique(after)
    requires forall r :: r in before ==> KeptOrRepaired(open, group, batch, before[r], after[r])
    requires forall r :: r in after && r !in before ==> Added(open, group, batch, before, after[r])
    requires AllPresent(group, batch, after)
    ensures Settled(open, group, batch, before, after)
  {
  }

  lemma SettleAdded(open: string -> Option<Secret>, group: nat, batch: seq<Loaded>, i: nat,
                    before: Credentials, after: Credentials, r: nat, c: Credential)
    requires i < |batch| && Unique(before) && Settled(open, group, batch[..i], before, after)
    requires !Repeated(batch, i) && Delivers(open, group, batch[i], c) && c.version == 1
    requires r !in after && forall q :: !Has(before, group, batch[i].row.identity, q)
    ensures Settled(open, group, batch[..i + 1], before, after[r := c])
  {
    hide Carries, Names, KeptOrRepaired, Repeated, Settled;
    SettleAt(open, group, batch, i, before, after, r, c);
    UniqueUpdate(open, group, batch, i, before, after, r, c);
    NamesNext(batch, i, c.identity);
    CarriesNext(open, batch, i, c);
    SettledFrom(open, group, batch[..i + 1], before, after[r := c]);
  }
}
