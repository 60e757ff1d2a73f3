/** The one-off customer migration: the same normalisation as
    `migrateExistingCustomers`, with each patch allowed to fail on its own
    and the failures counted instead of aborting the run. */
module Migrations {
  import opened Common
  import opened Domain
  import opened Customers

  /** How many of `docs` are patched when the patch of document `i` fails
      exactly when `fails(i)`. */
  function Succeeded(docs: seq<CustomerDoc>, fails: nat -> bool): (r: nat)
    ensures r <= |docs|
    decreases |docs|
  {
    if |docs| == 0 then 0
    else Succeeded(docs[..|docs| - 1], fails)
         + if NeedsMigration(docs[|docs| - 1]) && !fails(|docs| - 1) then 1 else 0
  }

  /** How many of `docs` need a patch whose patch fails. */
  function Failed(docs: seq<CustomerDoc>, fails: nat -> bool): (r: nat)
    ensures r <= |docs|
    decreases |docs|
  {
    if |docs| == 0 then 0
    else Failed(docs[..|docs| - 1], fails)
         + if NeedsMigration(docs[|docs| - 1]) && fails(|docs| - 1) then 1 else 0
  }

  /** Every document that needs a patch is counted once, as migrated or as
      an error; with no failures every such document is migrated. */
  lemma {:induction false} OutcomesSplit(docs: seq<CustomerDoc>, fails: nat -> bool)
    ensures Succeeded(docs, fails) + Failed(docs, fails) == PendingPatches(docs)
    ensures (forall i: nat :: i < |docs| ==> !fails(i)) ==> Failed(docs, fails) == 0 && Succeeded(docs, fails) == PendingPatches(docs)
    decreases |docs|
  {
    if |docs| > 0 {
      OutcomesSplit(docs[..|docs| - 1], fails);
    }
  }

  lemma OutcomeStep(s: seq<CustomerDoc>, i: nat, fails: nat -> bool)
    requires i < |s|
    ensures Succeeded(s[..i + 1], fails) == Succeeded(s[..i], fails) + if NeedsMigration(s[i]) && !fails(i) then 1 else 0
    ensures Failed(s[..i + 1], fails) == Failed(s[..i], fails) + if NeedsMigration(s[i]) && fails(i) then 1 else 0
  {
    assert s[..i + 1][..i] == s[..i];
  }

  /** One iteration: a document that needs a patch is patched, unless the
      patch fails, which leaves it as it was. */
  method TryPatch(docs: array<CustomerDoc>, i: nat, freshId: string, fails: bool) returns (patched: bool, failed: bool)
    requires i < docs.Length
    modifies docs
    ensures patched == (NeedsMigration(old(docs[i])) && !fails)
    ensures failed == (NeedsMigration(old(docs[i])) && fails)
    ensures docs[..] == old(docs[..])[i := if fails then old(docs[i]) else Normalised(old(docs[i]), freshId)]
  {
    var customer := docs[i];
    patched := false;
    failed := false;
    if NeedsMigration(customer) {
      if fails {
        failed := true;
      } else {
        docs[i] := Normalised(customer, freshId);
        patched := true;
      }
    } else {
      NormalisedSpec(customer, freshId);
    }
  }

  /** `migrateCustomers`: the patch of document `i` fails exactly when
      `patchFails(i)`; migrated and failed documents are counted apart, and
      a failed document keeps its old fields. */
  method MigrateCustomers(docs: array<CustomerDoc>, freshIds: nat -> string, patchFails: nat -> bool)
    returns (migrated: nat, errors: nat, total: nat)
    modifies docs
    ensures total == docs.Length
    ensures migrated == Succeeded(old(docs[..]), patchFails) && errors == Failed(old(docs[..]), patchFails)
    ensures migrated + errors == PendingPatches(old(docs[..])) && migrated + errors <= total
    ensures forall i :: 0 <= i < docs.Length ==>
      docs[i] == if patchFails(i) then old(docs[i]) else Normalised(old(docs[i]), freshIds(i))
  {
    ghost var orig := docs[..];
    ghost var target := seq(docs.Length, j requires 0 <= j < docs.Length =>
      if patchFails(j) then orig[j] else Normalised(orig[j], freshIds(j)));
    migrated, errors := 0, 0;
    for i := 0 to docs.Length
      invariant migrated == Succeeded(orig[..i], patchFails) && errors == Failed(orig[..i], patchFails)
      invariant forall j :: 0 <= j < i ==> docs[j] == target[j]
      invariant forall j :: i <= j < docs.Length ==> docs[j] == orig[j]
    {
      OutcomeStep(orig, i, patchFails);
      var patched, failed := TryPatch(docs, i, freshIds(i), patchFails(i));
      if patched {
        migrated := migrated + 1;
      }
      if failed {
        errors := errors + 1;
      }
    }
    assert orig[..docs.Length] == orig;
    OutcomesSplit(orig, patchFails);
    total := docs.Length;
  }
}
