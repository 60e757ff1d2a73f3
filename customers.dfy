/** Customers: registration, the saved-address list with its single-default
    rule, and the in-place normalisation of old customer documents. */
module Customers {
  import opened Common
  import opened Domain

  /** `create`: no uniqueness check; a second customer under a taken id is
      shadowed by the first for every lookup by id, so the table keeps the
      first. A new customer has no saved addresses. */
  method Create(db: Db, customerId: Id, clerkId: Id, name: string, email: string, phone: string, now: int)
    modifies db`customers
    ensures customerId in old(db.customers) ==> db.customers == old(db.customers)
    ensures customerId !in old(db.customers) ==>
      db.customers == old(db.customers)[customerId := Customer(customerId, clerkId, name, email, phone, [], now)]
  {
    if customerId !in db.customers {
      db.customers := db.customers[customerId := Customer(customerId, clerkId, name, email, phone, [], now)];
    }
  }

  // ---------------------------------------------------------------------
  // Saved addresses

  predicate IsDefault(a: SavedAddress) {
    a.isDefault == Some(true)
  }

  /** At most one saved address is the default. */
  predicate SingleDefault(addrs: seq<SavedAddress>) {
    forall i, j :: 0 <= i < j < |addrs| ==> !(IsDefault(addrs[i]) && IsDefault(addrs[j]))
  }

  /** `{ ...addr, isDefault: false }`. */
  function Undefaulted(a: SavedAddress): SavedAddress {
    a.(isDefault := Some(false))
  }

  /** The address `addAddress` is given, before it is stamped. */
  datatype NewAddress = NewAddress(
    addressId: Id, addressLabel: string, street: string, city: string, state: string,
    zipCode: string, coordinates: Coord, isDefault: Option<bool>)

  function Stamped(a: NewAddress, now: int): SavedAddress {
    SavedAddress(a.addressId, a.addressLabel, a.street, a.city, a.state, a.zipCode, a.coordinates, a.isDefault, now)
  }

  /** The list `addAddress` stores: the new address appended, after every
      earlier one loses its default flag if the new one is the default. */
  function WithAddress(addrs: seq<SavedAddress>, a: NewAddress, now: int): (r: seq<SavedAddress>)
    ensures |r| == |addrs| + 1 && r[|addrs|] == Stamped(a, now)
    ensures forall i :: 0 <= i < |addrs| ==>
      r[i] == if a.isDefault == Some(true) then Undefaulted(addrs[i]) else addrs[i]
  {
    var kept := if a.isDefault == Some(true)
                then seq(|addrs|, i requires 0 <= i < |addrs| => Undefaulted(addrs[i]))
                else addrs;
    kept + [Stamped(a, now)]
  }

  /** A new default is then the only default; any other new address keeps
      the rule as it was. */
  lemma WithAddressDefault(addrs: seq<SavedAddress>, a: NewAddress, now: int)
    ensures a.isDefault == Some(true) ==>
      forall i :: 0 <= i < |addrs| + 1 ==> (IsDefault(WithAddress(addrs, a, now)[i]) <==> i == |addrs|)
    ensures a.isDefault != Some(true) && SingleDefault(addrs) ==> SingleDefault(WithAddress(addrs, a, now))
  {
  }

  /** The fields `updateAddress` may be given. */
  datatype AddressPatch = AddressPatch(
    addressLabel: Option<string>, street: Option<string>, city: Option<string>, state: Option<string>,
    zipCode: Option<string>, coordinates: Option<Coord>, isDefault: Option<bool>)

  /** `{ ...addr, ...args.address }`: the supplied fields win. */
  function Merged(a: SavedAddress, p: AddressPatch): SavedAddress {
    a.(addressLabel := if p.addressLabel.Some? then p.addressLabel.value else a.addressLabel,
       street := if p.street.Some? then p.street.value else a.street,
       city := if p.city.Some? then p.city.value else a.city,
       state := if p.state.Some? then p.state.value else a.state,
       zipCode := if p.zipCode.Some? then p.zipCode.value else a.zipCode,
       coordinates := if p.coordinates.Some? then p.coordinates.value else a.coordinates,
       isDefault := if p.isDefault.Some? then p.isDefault else a.isDefault)
  }

  /** The list `updateAddress` stores: every entry with the id merged with
      the patch; when the patch sets the default, every other entry loses
      its flag, whether or not any entry has the id. */
  function WithUpdate(addrs: seq<SavedAddress>, addressId: Id, p: AddressPatch): (r: seq<SavedAddress>)
    ensures |r| == |addrs|
    ensures forall i :: 0 <= i < |addrs| && addrs[i].addressId == addressId ==> r[i] == Merged(addrs[i], p)
    ensures forall i :: 0 <= i < |addrs| && addrs[i].addressId != addressId ==>
      r[i] == if p.isDefault == Some(true) then Undefaulted(addrs[i]) else addrs[i]
  {
    seq(|addrs|, i requires 0 <= i < |addrs| =>
      if addrs[i].addressId == addressId then Merged(addrs[i], p)
      else if p.isDefault == Some(true) then Undefaulted(addrs[i])
      else addrs[i])
  }

  /** Setting the default leaves exactly the entries with the id as
      defaults, so one default when ids are unique; a patch that does not
      set the default keeps the single-default rule. */
  lemma WithUpdateDefault(addrs: seq<SavedAddress>, addressId: Id, p: AddressPatch)
    ensures p.isDefault == Some(true) ==>
      forall i :: 0 <= i < |addrs| ==> (IsDefault(WithUpdate(addrs, addressId, p)[i]) <==> addrs[i].addressId == addressId)
    ensures p.isDefault == Some(true) && (forall i, j :: 0 <= i < j < |addrs| ==> addrs[i].addressId != addrs[j].addressId) ==>
      SingleDefault(WithUpdate(addrs, addressId, p))
    ensures p.isDefault != Some(true) && SingleDefault(addrs) ==> SingleDefault(WithUpdate(addrs, addressId, p))
  {
    var r := WithUpdate(addrs, addressId, p);
    if p.isDefault != Some(true) && SingleDefault(addrs) {
      forall i, j | 0 <= i < j < |r| ensures !(IsDefault(r[i]) && IsDefault(r[j])) {
        assert IsDefault(r[i]) ==> IsDefault(addrs[i]);
        assert IsDefault(r[j]) ==> IsDefault(addrs[j]);
      }
    }
  }

  function NotAddress(addressId: Id): SavedAddress -> bool {
    (a: SavedAddress) => a.addressId != addressId
  }

  /** The list `deleteAddress` stores: the entries with the id gone, the
      others kept in order. */
  function WithoutAddress(addrs: seq<SavedAddress>, addressId: Id): (r: seq<SavedAddress>)
    ensures forall a :: a in r <==> a in addrs && a.addressId != addressId
    ensures (forall i :: 0 <= i < |addrs| ==> addrs[i].addressId != addressId) ==> r == addrs
  {
    KeptAddresses(addrs, addressId);
    Filter(addrs, NotAddress(addressId))
  }

  lemma KeptAddresses(addrs: seq<SavedAddress>, addressId: Id)
    ensures forall a :: a in Filter(addrs, NotAddress(addressId)) <==> a in addrs && a.addressId != addressId
    ensures (forall i :: 0 <= i < |addrs| ==> addrs[i].addressId != addressId) ==> Filter(addrs, NotAddress(addressId)) == addrs
  {
    var r := Filter(addrs, NotAddress(addressId));
    forall a | a in addrs && a.addressId != addressId ensures a in r {
      var m :| 0 <= m < |addrs| && addrs[m] == a;
    }
    if forall i :: 0 <= i < |addrs| ==> addrs[i].addressId != addressId {
      FilterKeepsAll(addrs, NotAddress(addressId));
    }
  }

  /** Deleting keeps the single-default rule. */
  lemma WithoutAddressDefault(addrs: seq<SavedAddress>, addressId: Id)
    requires SingleDefault(addrs)
    ensures SingleDefault(WithoutAddress(addrs, addressId))
  {
    FilterSubsequence(addrs, NotAddress(addressId));
  }

  /** Filtering picks elements at increasing positions. */
  lemma {:induction false} FilterSubsequence(addrs: seq<SavedAddress>, p: SavedAddress -> bool)
    requires SingleDefault(addrs)
    ensures SingleDefault(Filter(addrs, p))
    decreases |addrs|
  {
    if |addrs| > 0 {
      var init := addrs[..|addrs| - 1];
      var x := addrs[|addrs| - 1];
      assert SingleDefault(init) by {
        forall i, j | 0 <= i < j < |init| ensures !(IsDefault(init[i]) && IsDefault(init[j])) {
          assert init[i] == addrs[i] && init[j] == addrs[j];
        }
      }
      FilterSubsequence(init, p);
      var f := Filter(init, p);
      if p(x) && IsDefault(x) {
        forall i | 0 <= i < |f| ensures !IsDefault(f[i]) {
          var k :| 0 <= k < |init| && init[k] == f[i];
          assert addrs[k] == init[k];
        }
        var r := f + [x];
        forall i, j | 0 <= i < j < |r| ensures !(IsDefault(r[i]) && IsDefault(r[j])) {
          if j < |f| {
            assert r[i] == f[i] && r[j] == f[j];
          } else {
            assert r[i] == f[i];
          }
        }
      } else if p(x) {
        var r := f + [x];
        forall i, j | 0 <= i < j < |r| ensures !(IsDefault(r[i]) && IsDefault(r[j])) {
          if j < |f| {
            assert r[i] == f[i] && r[j] == f[j];
          }
        }
      }
    }
  }

  /** `addAddress`: one patch of the customer's list. */
  method AddAddress(db: Db, customerId: Id, address: NewAddress, now: int) returns (r: Result<()>)
    modifies db`customers
    ensures r.Err? ==> unchanged(db)
    ensures r.Ok? <==> customerId in old(db.customers)
    ensures r.Err? ==> r == Err(CustomerNotFound(customerId))
    ensures r.Ok? ==>
      var c := old(db.customers)[customerId];
      db.customers == old(db.customers)[customerId := c.(savedAddresses := WithAddress(c.savedAddresses, address, now))]
  {
    if customerId !in db.customers {
      return Err(CustomerNotFound(customerId));
    }
    var customer := db.customers[customerId];
    var addresses := customer.savedAddresses;
    if address.isDefault == Some(true) {
      addresses := seq(|addresses|, i requires 0 <= i < |addresses| => Undefaulted(addresses[i]));
    }
    addresses := addresses + [Stamped(address, now)];
    db.customers := db.customers[customerId := customer.(savedAddresses := addresses)];
    r := Ok(());
  }

  /** `updateAddress`: one patch of the customer's list. */
  method UpdateAddress(db: Db, customerId: Id, addressId: Id, patch: AddressPatch) returns (r: Result<()>)
    modifies db`customers
    ensures r.Err? ==> unchanged(db)
    ensures r.Ok? <==> customerId in old(db.customers)
    ensures r.Err? ==> r == Err(CustomerNotFound(customerId))
    ensures r.Ok? ==>
      var c := old(db.customers)[customerId];
      db.customers == old(db.customers)[customerId := c.(savedAddresses := WithUpdate(c.savedAddresses, addressId, patch))]
  {
    if customerId !in db.customers {
      return Err(CustomerNotFound(customerId));
    }
    var customer := db.customers[customerId];
    var addresses := WithUpdate(customer.savedAddresses, addressId, patch);
    db.customers := db.customers[customerId := customer.(savedAddresses := addresses)];
    r := Ok(());
  }

  /** `deleteAddress`: one patch of the customer's list. */
  method DeleteAddress(db: Db, customerId: Id, addressId: Id) returns (r: Result<()>)
    modifies db`customers
    ensures r.Err? ==> unchanged(db)
    ensures r.Ok? <==> customerId in old(db.customers)
    ensures r.Err? ==> r == Err(CustomerNotFound(customerId))
    ensures r.Ok? ==>
      var c := old(db.customers)[customerId];
      db.customers == old(db.customers)[customerId := c.(savedAddresses := WithoutAddress(c.savedAddresses, addressId))]
  {
    if customerId !in db.customers {
      return Err(CustomerNotFound(customerId));
    }
    var customer := db.customers[customerId];
    var addresses := WithoutAddress(customer.savedAddresses, addressId);
    db.customers := db.customers[customerId := customer.(savedAddresses := addresses)];
    r := Ok(());
  }

  // ---------------------------------------------------------------------
  // Normalising old customer documents

  /** A customer document as stored, before the schema settled: any field
      may be missing, and old documents carry first and last names. */
  datatype CustomerDoc = CustomerDoc(
    customerId: Option<string>, clerkId: Option<string>, name: Option<string>,
    firstName: Option<string>, lastName: Option<string>, email: Option<string>,
    phone: Option<string>, savedAddresses: Option<seq<SavedAddress>>, createdAt: Option<int>)

  /** The whitespace `String.prototype.trim` removes (ASCII part). */
  predicate IsSpace(c: char) {
    c == ' ' || c == '\t' || c == '\n' || c == '\r' || c == '\U{000B}' || c == '\U{000C}'
  }

  /** `r` is `s` from position `i` on, with only blanks before and after
      it. */
  predicate BlanksAround(r: string, s: string, i: nat) {
    && i + |r| <= |s| && r == s[i..i + |r|]
    && (forall k :: 0 <= k < i ==> IsSpace(s[k]))
    && (forall k :: i + |r| <= k < |s| ==> IsSpace(s[k]))
  }

  /** `r` is `s` with some blanks removed from its front and its back, and
      nothing else. */
  ghost predicate StrippedOf(r: string, s: string) {
    exists i: nat :: BlanksAround(r, s, i)
  }

  function TrimStart(s: string): (r: string)
    ensures |r| <= |s| && r == s[|s| - |r|..]
    ensures forall k :: 0 <= k < |s| - |r| ==> IsSpace(s[k])
    ensures r == "" || !IsSpace(r[0])
    decreases |s|
  {
    if |s| > 0 && IsSpace(s[0]) then TrimStart(s[1..]) else s
  }

  function TrimEnd(s: string): (r: string)
    ensures r <= s
    ensures forall k :: |r| <= k < |s| ==> IsSpace(s[k])
    ensures r == "" || !IsSpace(r[|r| - 1])
    decreases |s|
  {
    if |s| > 0 && IsSpace(s[|s| - 1]) then TrimEnd(s[..|s| - 1]) else s
  }

  /** `String.prototype.trim`: the input with its leading and trailing
      blanks removed, all of them, so the result is empty exactly when the
      input is all blanks. */
  function Trim(s: string): (r: string)
    ensures StrippedOf(r, s)
    ensures r == "" || (!IsSpace(r[0]) && !IsSpace(r[|r| - 1]))
    ensures r == "" <==> forall k :: 0 <= k < |s| ==> IsSpace(s[k])
  {
    var a := TrimStart(s);
    var t := TrimEnd(a);
    var i := |s| - |a|;
    assert t == s[i..i + |t|];
    assert forall k :: i + |t| <= k < |s| ==> IsSpace(s[k]) by {
      forall k | i + |t| <= k < |s| ensures IsSpace(s[k]) {
        assert s[k] == a[k - i];
      }
    }
    assert t == "" || t[0] == a[0];
    assert t != "" ==> !IsSpace(s[i]);
    assert BlanksAround(t, s, i);
    t
  }

  /** `[firstName, lastName].filter(Boolean).join(' ')`. */
  function JoinNames(first: Option<string>, last: Option<string>): string {
    if Truthy(first) && Truthy(last) then first.value + " " + last.value
    else if Truthy(first) then first.value
    else if Truthy(last) then last.value
    else ""
  }

  /** The name given to a document without one: the joined and trimmed
      first and last names, or 'Unknown Customer'. */
  function DerivedName(first: Option<string>, last: Option<string>): (r: string)
    ensures r != "" && !IsSpace(r[0]) && !IsSpace(r[|r| - 1])
    ensures (exists k :: 0 <= k < |JoinNames(first, last)| && !IsSpace(JoinNames(first, last)[k])) ==>
      StrippedOf(r, JoinNames(first, last))
    ensures (forall k :: 0 <= k < |JoinNames(first, last)| ==> IsSpace(JoinNames(first, last)[k])) ==>
      r == "Unknown Customer"
  {
    if Truthy(first) || Truthy(last) then
      var joined := Trim(JoinNames(first, last));
      if joined != "" then joined else "Unknown Customer"
    else "Unknown Customer"
  }

  /** A string that neither starts nor ends with a blank trims to itself. */
  lemma TrimUnpadded(s: string)
    requires s != "" && !IsSpace(s[0]) && !IsSpace(s[|s| - 1])
    ensures Trim(s) == s
  {
    assert TrimStart(s) == s;
    assert TrimEnd(s) == s;
  }

  /** Names without surrounding blanks are joined with one space. */
  lemma DerivedNameSpec(first: string, last: string)
    requires first != "" && !IsSpace(first[0]) && !IsSpace(first[|first| - 1])
    requires last != "" && !IsSpace(last[0]) && !IsSpace(last[|last| - 1])
    ensures DerivedName(Some(first), Some(last)) == first + " " + last
    ensures DerivedName(Some(first), None) == first
    ensures DerivedName(None, None) == "Unknown Customer"
  {
    var joined := first + " " + last;
    TrimUnpadded(joined);
    DerivedNameIs(Some(first), Some(last), joined);
    TrimUnpadded(first);
    DerivedNameIs(Some(first), None, first);
  }

  /** A leading blank does not change what `TrimStart` keeps. */
  lemma TrimStartBlank(x: string)
    ensures TrimStart(" " + x) == TrimStart(x)
  {
    assert (" " + x)[1..] == x;
  }

  /** A trailing blank does not change what `TrimEnd` keeps. */
  lemma TrimEndBlank(x: string)
    ensures TrimEnd(x + " ") == TrimEnd(x)
  {
    assert (x + " ")[..|x|] == x;
  }

  /** `Trim` is `TrimStart` followed by `TrimEnd`. */
  lemma TrimSteps(s: string)
    ensures Trim(s) == TrimEnd(TrimStart(s))
  {
  }

  /** One blank on each side of a name is dropped. */
  lemma DerivedNamePadded(first: string)
    requires first != "" && !IsSpace(first[0]) && !IsSpace(first[|first| - 1])
    ensures DerivedName(Some(" " + first + " "), None) == first
  {
    var padded := " " + first + " ";
    assert padded == " " + (first + " ");
    TrimStartBlank(first + " ");
    assert TrimStart(first + " ") == first + " ";
    TrimEndBlank(first);
    assert TrimEnd(first) == first;
    TrimSteps(padded);
    DerivedNameIs(Some(padded), None, first);
  }

  /** A name of blanks only gives the fallback. */
  lemma DerivedNameBlank()
    ensures DerivedName(Some("  "), None) == "Unknown Customer"
  {
    assert JoinNames(Some("  "), None) == "  ";
  }

  lemma DerivedNameIs(first: Option<string>, last: Option<string>, name: string)
    requires Truthy(first) || Truthy(last)
    requires name != "" && Trim(JoinNames(first, last)) == name
    ensures DerivedName(first, last) == name
  {
  }

  /** Some field is missing or falsy, so the document gets a patch. */
  predicate NeedsMigration(d: CustomerDoc) {
    !Truthy(d.customerId) || !Truthy(d.name) || !Truthy(d.phone) || d.savedAddresses.None?
  }

  /** The patched document: a fresh `customer_` id when the id is missing, a
      derived name when the name is missing, '' for a missing phone, [] for
      missing addresses; everything present is kept. */
  function Normalised(d: CustomerDoc, freshId: string): CustomerDoc
  {
    d.(customerId := if Truthy(d.customerId) then d.customerId else Some("customer_" + freshId),
       name := if Truthy(d.name) then d.name else Some(DerivedName(d.firstName, d.lastName)),
       phone := if Truthy(d.phone) then d.phone else Some(""),
       savedAddresses := if d.savedAddresses.Some? then d.savedAddresses else Some([]))
  }

  lemma NormalisedSpec(d: CustomerDoc, freshId: string)
    ensures var r := Normalised(d, freshId);
      && Truthy(r.customerId) && Truthy(r.name) && r.phone.Some? && r.savedAddresses.Some?
      && (Truthy(d.customerId) ==> r.customerId == d.customerId)
      && (!Truthy(d.customerId) ==> r.customerId == Some("customer_" + freshId))
      && (Truthy(d.name) ==> r.name == d.name)
      && (!Truthy(d.name) ==> r.name == Some(DerivedName(d.firstName, d.lastName)))
      && r.phone == (if Truthy(d.phone) then d.phone else Some(""))
      && (d.savedAddresses.Some? ==> r.savedAddresses == d.savedAddresses)
      && (d.savedAddresses.None? ==> r.savedAddresses == Some([]))
      && r.(customerId := d.customerId, name := d.name, phone := d.phone, savedAddresses := d.savedAddresses) == d
      && (!NeedsMigration(d) ==> r == d)
  {
  }

  /** A second run patches a normalised document again exactly when its
      phone is empty: the empty phone counts as missing, and the patch
      writes the empty phone back. */
  lemma RerunPatchesEmptyPhones(d: CustomerDoc, id1: string, id2: string)
    ensures NeedsMigration(Normalised(d, id1)) <==> Normalised(d, id1).phone == Some("")
    ensures Normalised(Normalised(d, id1), id2) == Normalised(d, id1)
  {
  }

  /** How many of `docs` need a patch. */
  function PendingPatches(docs: seq<CustomerDoc>): (r: nat)
    ensures r <= |docs|
    ensures r == 0 <==> forall i :: 0 <= i < |docs| ==> !NeedsMigration(docs[i])
    decreases |docs|
  {
    if |docs| == 0 then 0
    else PendingPatches(docs[..|docs| - 1]) + if NeedsMigration(docs[|docs| - 1]) then 1 else 0
  }

  lemma PendingPatchesStep(s: seq<CustomerDoc>, i: nat)
    requires i < |s|
    ensures PendingPatches(s[..i + 1]) == PendingPatches(s[..i]) + if NeedsMigration(s[i]) then 1 else 0
  {
    assert s[..i + 1][..i] == s[..i];
  }

  /** One iteration: patch document `i` when it needs it. */
  method PatchIfNeeded(docs: array<CustomerDoc>, i: nat, freshId: string) returns (patched: bool)
    requires i < docs.Length
    modifies docs
    ensures patched == NeedsMigration(old(docs[i]))
    ensures docs[..] == old(docs[..])[i := Normalised(old(docs[i]), freshId)]
  {
    var customer := docs[i];
    patched := NeedsMigration(customer);
    if patched {
      docs[i] := Normalised(customer, freshId);
    } else {
      NormalisedSpec(customer, freshId);
    }
  }

  /** `migrateExistingCustomers`: each document that needs it is patched in
      place and counted; the total is the number of documents. */
  method MigrateExistingCustomers(docs: array<CustomerDoc>, freshIds: nat -> string) returns (migrated: nat, total: nat)
    modifies docs
    ensures total == docs.Length && migrated == PendingPatches(old(docs[..])) && migrated <= total
    ensures forall i :: 0 <= i < docs.Length ==> docs[i] == Normalised(old(docs[i]), freshIds(i))
  {
    ghost var orig := docs[..];
    ghost var target := seq(docs.Length, j requires 0 <= j < docs.Length => Normalised(orig[j], freshIds(j)));
    migrated := 0;
    for i := 0 to docs.Length
      invariant migrated == PendingPatches(orig[..i])
      invariant forall j :: 0 <= j < i ==> docs[j] == target[j]
      invariant forall j :: i <= j < docs.Length ==> docs[j] == orig[j]
    {
      PendingPatchesStep(orig, i);
      var patched := PatchIfNeeded(docs, i, freshIds(i));
      if patched {
        migrated := migrated + 1;
      }
    }
    assert orig[..docs.Length] == orig;
    total := docs.Length;
  }
}
