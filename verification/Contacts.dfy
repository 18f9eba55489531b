/** Per-user contact lists: sorted lists that refine a map from identifier to contact. */
module Contacts {
  import opened GoStrings
  import opened Wrappers
  import Sorting

  type Time = int

  datatype UserContact = UserContact(
    id: int,
    userID: int,
    displayName: string,
    extensionNumber: string,
    phoneNumber: string,
    email: string,
    favorite: bool,
    createdAt: Time,
    updatedAt: Time)

  function NormalizeEmail(input: string): string { TrimSpace(ToLower(input)) }

  function NormalizeUserContact(c: UserContact): UserContact {
    c.(displayName := TrimSpace(c.displayName), extensionNumber := TrimSpace(c.extensionNumber),
       phoneNumber := TrimSpace(c.phoneNumber), email := NormalizeEmail(c.email))
  }

  lemma NormalizeEmailIsIdempotent(s: string)
    ensures NormalizeEmail(NormalizeEmail(s)) == NormalizeEmail(s)
  {
    TrimSpaceOfLower(s);
    ToLowerFixed(NormalizeEmail(s));
  }

  /** Saving a stored contact again changes none of its text. */
  lemma NormalizeContactIsIdempotent(c: UserContact)
    ensures NormalizeUserContact(NormalizeUserContact(c)) == NormalizeUserContact(c)
  {
    NormalizeEmailIsIdempotent(c.email);
  }

  const TWO_63: int := 0x8000_0000_0000_0000
  const TWO_64: int := 0x1_0000_0000_0000_0000

  predicate IsInt64(x: int) { -TWO_63 <= x < TWO_63 }

  /** 64-bit subtraction as Go performs it, with wrap-around. */
  function Minus64(a: int, b: int): (r: int)
    requires IsInt64(a) && IsInt64(b)
    ensures IsInt64(r)
  {
    var d := a - b;
    if d >= TWO_63 then d - TWO_64 else if d < -TWO_63 then d + TWO_64 else d
  }

  /** Comparing identifiers by the sign of their difference agrees with their order exactly when the
      difference fits in 64 bits; for identifiers that are not negative it always does. */
  lemma DifferenceOrdersIff(a: int, b: int)
    requires IsInt64(a) && IsInt64(b)
    ensures (Minus64(a, b) < 0 <==> a < b) <==> IsInt64(a - b)
    ensures a >= 0 && b >= 0 ==> IsInt64(a - b)
  {
  }

  lemma DifferenceMisordersExtremes()
    ensures Minus64(-TWO_63, 1) > 0
  {
  }

  /** The comparator of `SortUserContacts`, as "comes before". Identifiers outside 64 bits do not occur. */
  predicate ContactLess(a: UserContact, b: UserContact) {
    var x, y := ToLower(a.displayName), ToLower(b.displayName);
    if x != y then Less(x, y)
    else IsInt64(a.id) && IsInt64(b.id) && Minus64(a.id, b.id) < 0
  }

  /** Comparing the two contacts, either way round, needs no difference that 64 bits cannot hold. */
  predicate Fit(a: UserContact, b: UserContact) {
    && IsInt64(a.id) && IsInt64(b.id)
    && (ToLower(a.displayName) == ToLower(b.displayName) ==> -TWO_63 < a.id - b.id < TWO_63)
  }

  ghost predicate AllFit(all: multiset<UserContact>) {
    forall a, b :: a in all && b in all ==> Fit(a, b)
  }

  /** Identifiers that are not negative, as the store hands out, always fit. */
  lemma OrdinaryIdentifiersFit(all: multiset<UserContact>)
    requires forall c :: c in all ==> 0 <= c.id < TWO_63
    ensures AllFit(all)
  {
  }

  lemma ContactLessMeans(a: UserContact, b: UserContact)
    requires Fit(a, b)
    ensures ContactLess(a, b) <==>
              Less(ToLower(a.displayName), ToLower(b.displayName)) || (ToLower(a.displayName) == ToLower(b.displayName) && a.id < b.id)
    ensures a.id != b.id ==> ContactLess(a, b) || ContactLess(b, a)
  {
    LessIrreflexive(ToLower(a.displayName));
    LessTotal(ToLower(a.displayName), ToLower(b.displayName));
  }

  lemma ContactLessAsymmetric(a: UserContact, b: UserContact)
    requires Fit(a, b) && ContactLess(a, b)
    ensures !ContactLess(b, a)
  {
    var x, y := ToLower(a.displayName), ToLower(b.displayName);
    ContactLessMeans(a, b);
    ContactLessMeans(b, a);
    LessIrreflexive(x);
    if Less(x, y) && Less(y, x) { LessTransitive(x, y, x); }
  }

  lemma ContactLessSplits(a: UserContact, b: UserContact, c: UserContact)
    requires Fit(a, b) && Fit(b, c) && Fit(a, c) && ContactLess(a, c)
    ensures ContactLess(a, b) || ContactLess(b, c)
  {
    var x, y, z := ToLower(a.displayName), ToLower(b.displayName), ToLower(c.displayName);
    ContactLessMeans(a, b);
    ContactLessMeans(b, c);
    ContactLessMeans(a, c);
    LessTotal(x, y);
    LessTotal(y, z);
    if Less(y, x) && Less(x, z) { LessTransitive(y, x, z); }
  }

  lemma ContactOrderIsWeak(all: multiset<UserContact>)
    requires AllFit(all)
    ensures Sorting.WeakOrderOn(ContactLess, all)
  {
    forall a, b | a in all && b in all && ContactLess(a, b) ensures !ContactLess(b, a) {
      ContactLessAsymmetric(a, b);
    }
    forall a, b, c | a in all && b in all && c in all && ContactLess(a, c) ensures ContactLess(a, b) || ContactLess(b, c) {
      ContactLessSplits(a, b, c);
    }
  }

  /** The list holds the contacts of the map, each once. */
  ghost predicate Lists(list: seq<UserContact>, m: map<int, UserContact>) {
    && (forall i :: 0 <= i < |list| ==> list[i].id in m && m[list[i].id] == list[i])
    && (forall i, j :: 0 <= i < j < |list| ==> list[i].id != list[j].id)
    && (forall id :: id in m ==> m[id].id == id && m[id] in list)
  }

  lemma ListsPermutation(a: seq<UserContact>, b: seq<UserContact>, m: map<int, UserContact>)
    requires Lists(a, m) && multiset(a) == multiset(b)
    ensures Lists(b, m)
  {
    Sorting.PermutationIsDistinct(a, b);
    forall i | 0 <= i < |b| ensures b[i].id in m && m[b[i].id] == b[i] { assert b[i] in a; }
  }

  lemma SameListing(a: seq<UserContact>, b: seq<UserContact>, m: map<int, UserContact>)
    requires Lists(a, m) && Lists(b, m)
    ensures multiset(a) == multiset(b)
  {
    forall c ensures c in a <==> c in b {
      if c in a { assert c == m[c.id]; }
      if c in b { assert c == m[c.id]; }
    }
    Sorting.SameMembers(a, b);
  }

  /** What a listing promises: the contacts of the map, in order if the comparator can be trusted on them. */
  ghost predicate IsListing(list: seq<UserContact>, m: map<int, UserContact>) {
    Lists(list, m) && (AllFit(multiset(list)) ==> Sorting.SortedBy(ContactLess, list))
  }

  /** A map from identifiers has one list in this order: by lower-cased name, then identifier. */
  lemma OrderedListIsUnique(a: seq<UserContact>, b: seq<UserContact>, m: map<int, UserContact>)
    requires Lists(a, m) && Lists(b, m)
    requires AllFit(multiset(a))
    requires Sorting.SortedBy(ContactLess, a) && Sorting.SortedBy(ContactLess, b)
    ensures a == b
    ensures forall i, j :: 0 <= i < j < |a| ==>
              var x, y := ToLower(a[i].displayName), ToLower(a[j].displayName); Less(x, y) || (x == y && a[i].id < a[j].id)
  {
    SameListing(a, b, m);
    StrictlyOrdered(a, m);
    assert multiset(a) == multiset(b);
    StrictlyOrdered(b, m);
    var less := (x: UserContact, y: UserContact) => Fit(x, y) && ContactLess(x, y);
    forall x, y | less(x, y) ensures !less(y, x) { ContactLessAsymmetric(x, y); }
    Sorting.SortedIsUnique(less, a, b);
    forall i, j | 0 <= i < j < |a|
      ensures var x, y := ToLower(a[i].displayName), ToLower(a[j].displayName); Less(x, y) || (x == y && a[i].id < a[j].id)
    {
      ContactLessMeans(a[i], a[j]);
    }
  }

  lemma StrictlyOrdered(a: seq<UserContact>, m: map<int, UserContact>)
    requires Lists(a, m) && AllFit(multiset(a))
    requires Sorting.SortedBy(ContactLess, a)
    ensures forall i, j :: 0 <= i < j < |a| ==> ContactLess(a[i], a[j]) && Fit(a[i], a[j])
  {
    forall i, j | 0 <= i < j < |a| ensures ContactLess(a[i], a[j]) && Fit(a[i], a[j]) {
      assert a[i] in multiset(a) && a[j] in multiset(a);
      ContactLessMeans(a[i], a[j]);
    }
  }

  /** The contacts of all users, as maps, and the identifier counter they share. */
  datatype ContactState = ContactState(next: int, users: map<int, map<int, UserContact>>)
  {
    function Of(user: int): map<int, UserContact> {
      if user in users then users[user] else map[]
    }
  }

  /** What a save stores: insert, or replace keeping the original creation time. `born` and `now` are the
      store's two clock readings. */
  function SavedContact(st: ContactState, c: UserContact, born: Time, now: Time): UserContact {
    var n := NormalizeUserContact(c);
    var id := if c.id == 0 then st.next else c.id;
    var created := if c.id == 0 && c.createdAt == 0 then born else c.createdAt;
    n.(id := id, updatedAt := now, createdAt := if id in st.Of(c.userID) then st.Of(c.userID)[id].createdAt else created)
  }

  /** The saved contact, field by field. */
  lemma SavedContactIs(st: ContactState, c: UserContact, born: Time, now: Time)
    ensures var s, before := SavedContact(st, c, born, now), st.Of(c.userID);
            && s.userID == c.userID && s.favorite == c.favorite && s.updatedAt == now
            && s.displayName == TrimSpace(c.displayName) && s.extensionNumber == TrimSpace(c.extensionNumber)
            && s.phoneNumber == TrimSpace(c.phoneNumber) && s.email == TrimSpace(ToLower(c.email))
            && (c.id == 0 ==> s.id == st.next) && (c.id != 0 ==> s.id == c.id)
            && (s.id in before ==> s.createdAt == before[s.id].createdAt)
            && (s.id !in before && c.id == 0 && c.createdAt == 0 ==> s.createdAt == born)
            && (s.id !in before && (c.id != 0 || c.createdAt != 0) ==> s.createdAt == c.createdAt)
  {
    hide TrimSpace, ToLower;
  }

  function SaveContact(st: ContactState, c: UserContact, born: Time, now: Time): ContactState {
    var saved := SavedContact(st, c, born, now);
    ContactState(if c.id == 0 then st.next + 1 else st.next,
                 st.users[c.userID := st.Of(c.userID)[saved.id := saved]])
  }

  /** A save changes the one contact of that number of the one user and no other. */
  lemma SaveTouchesOne(st: ContactState, c: UserContact, born: Time, now: Time, other: int)
    ensures var (saved, after) := (SavedContact(st, c, born, now), SaveContact(st, c, born, now));
            && after.Of(c.userID) == st.Of(c.userID)[saved.id := saved]
            && (other != c.userID ==> after.Of(other) == st.Of(other))
            && after.next == (if c.id == 0 then st.next + 1 else st.next)
  {
    hide SavedContact;
  }

  /** A save that lets the store number the contact adds one exactly when the number is not yet taken
      by a contact that a caller numbered itself; otherwise it replaces that contact. */
  lemma NumberedSaveAddsIff(st: ContactState, c: UserContact, born: Time, now: Time)
    requires c.id == 0
    ensures |SaveContact(st, c, born, now).Of(c.userID)| == |st.Of(c.userID)| + 1 <==> st.next !in st.Of(c.userID)
  {
    var m := st.Of(c.userID);
    var saved := SavedContact(st, c, born, now);
    assert m[saved.id := saved].Keys == m.Keys + {st.next};
  }

  lemma NumberedSaveCanReplace(c: UserContact)
    requires c.id == 1
    ensures var st := SaveContact(ContactState(1, map[]), c, 0, 0);
            SaveContact(st, c.(id := 0), 0, 0).Of(c.userID).Keys == {1}
  {
    var st := SaveContact(ContactState(1, map[]), c, 0, 0);
    assert st.Of(c.userID).Keys == {1} && st.next == 1;
  }

  /** While callers only pass numbers the store has handed out, numbered saves never replace. */
  ghost predicate Numbered(st: ContactState) {
    st.next >= 1 && forall user, id :: user in st.users && id in st.users[user] ==> 1 <= id < st.next
  }

  lemma NumberedSavesStayNumbered(st: ContactState, c: UserContact, born: Time, now: Time)
    requires Numbered(st) && 0 <= c.id < st.next
    ensures Numbered(SaveContact(st, c, born, now))
    ensures c.id == 0 ==> st.next !in st.Of(c.userID)
  {
  }

  lemma NumberedListFits(st: ContactState, user: int, list: seq<UserContact>)
    requires Numbered(st) && st.next <= TWO_63 && Lists(list, st.Of(user))
    ensures AllFit(multiset(list))
  {
    forall c | c in multiset(list) ensures 0 <= c.id < TWO_63 {
      assert c in list;
      assert user in st.users && c.id in st.users[user];
    }
    OrdinaryIdentifiersFit(multiset(list));
  }

  /** While the numbers handed out fit in 64 bits and callers pass no others, every listing of a user's contacts
      is the one list strictly ordered by lower-cased name, then identifier. */
  lemma NumberedListIsUnique(st: ContactState, user: int, a: seq<UserContact>, b: seq<UserContact>)
    requires Numbered(st) && st.next <= TWO_63
    requires IsListing(a, st.Of(user)) && IsListing(b, st.Of(user))
    ensures a == b
    ensures forall i, j :: 0 <= i < j < |a| ==>
              var x, y := ToLower(a[i].displayName), ToLower(a[j].displayName); Less(x, y) || (x == y && a[i].id < a[j].id)
  {
    NumberedListFits(st, user, a);
    NumberedListFits(st, user, b);
    OrderedListIsUnique(a, b, st.Of(user));
  }

  datatype ContactCall = Save(contact: UserContact, born: Time, now: Time) | Delete(user: int, id: int)

  function DeleteContact(st: ContactState, user: int, id: int): ContactState {
    if id in st.Of(user) then st.(users := st.users[user := st.Of(user) - {id}]) else st
  }

  /** A deletion takes the one contact of that number from the one user and no other. */
  lemma DeleteContactIs(st: ContactState, user: int, id: int, other: int)
    ensures DeleteContact(st, user, id).next == st.next
    ensures DeleteContact(st, user, id).Of(user) == st.Of(user) - {id}
    ensures other != user ==> DeleteContact(st, user, id).Of(other) == st.Of(other)
  {
    assert id !in st.Of(user) ==> st.Of(user) - {id} == st.Of(user);
  }

  function Run(calls: seq<ContactCall>): ContactState {
    if calls == [] then ContactState(1, map[])
    else
      var st := Run(calls[..|calls| - 1]);
      match calls[|calls| - 1]
      case Save(contact, born, now) => SaveContact(st, contact, born, now)
      case Delete(user, id) => DeleteContact(st, user, id)
  }

  /** Every save leaves the number to the store or passes one that the store has handed out. */
  ghost predicate KnownNumbers(calls: seq<ContactCall>) {
    forall k :: 0 <= k < |calls| && calls[k].Save? ==> 0 <= calls[k].contact.id < Run(calls[..k]).next
  }

  lemma {:induction false} RunStaysNumbered(calls: seq<ContactCall>)
    requires KnownNumbers(calls)
    ensures Numbered(Run(calls)) && Run(calls).next <= 1 + |calls|
  {
    hide SavedContact, NormalizeUserContact;
    if calls != [] {
      var n := |calls| - 1;
      var init := calls[..n];
      forall k | 0 <= k < n && init[k].Save? ensures 0 <= init[k].contact.id < Run(init[..k]).next {
        assert init[..k] == calls[..k] && init[k] == calls[k];
      }
      RunStaysNumbered(init);
      match calls[n]
      case Save(contact, born, now) => NumberedSavesStayNumbered(Run(init), contact, born, now);
      case Delete(user, id) =>
    }
  }

  /** So after any run of fewer than 2^63 calls that pass only known numbers, a user's contacts are listed in
      exactly one way, and in strict order. */
  lemma RunListIsUnique(calls: seq<ContactCall>, user: int, a: seq<UserContact>, b: seq<UserContact>)
    requires KnownNumbers(calls) && |calls| < TWO_63
    requires IsListing(a, Run(calls).Of(user)) && IsListing(b, Run(calls).Of(user))
    ensures a == b
    ensures forall i, j :: 0 <= i < j < |a| ==>
              var x, y := ToLower(a[i].displayName), ToLower(a[j].displayName); Less(x, y) || (x == y && a[i].id < a[j].id)
  {
    RunStaysNumbered(calls);
    NumberedListIsUnique(Run(calls), user, a, b);
  }

  class ContactStore {
    var nextContactID: int
    var userContacts: map<int, seq<UserContact>>
    /** The same contacts as maps; only the specification reads it. */
    ghost var state: ContactState

    ghost predicate Valid() reads this {
      && state.next == nextContactID
      && userContacts.Keys == state.users.Keys
      && forall user :: user in userContacts ==> Lists(userContacts[user], state.users[user])
    }

    constructor ()
      ensures Valid() && state == ContactState(1, map[])
    {
      nextContactID, userContacts := 1, map[];
      state := ContactState(1, map[]);
    }

    function Stored(user: int): seq<UserContact> reads this {
      if user in userContacts then userContacts[user] else []
    }

    /** `SortUserContacts`. */
    method SortUserContacts(contacts: seq<UserContact>) returns (sorted: seq<UserContact>)
      ensures multiset(sorted) == multiset(contacts)
      ensures AllFit(multiset(contacts)) ==> Sorting.SortedBy(ContactLess, sorted)
    {
      sorted := Sorting.Sort(contacts, ContactLess);
      if AllFit(multiset(contacts)) {
        ContactOrderIsWeak(multiset(contacts));
      }
    }

    /** The loop of a save: overwrite the entry with this identifier, keeping its creation time, or append. */
    method Upsert(contacts: seq<UserContact>, contact: UserContact, ghost m: map<int, UserContact>)
      returns (saved: UserContact, updated: seq<UserContact>)
      requires Lists(contacts, m)
      ensures saved == contact.(createdAt := if contact.id in m then m[contact.id].createdAt else contact.createdAt)
      ensures Lists(updated, m[contact.id := saved])
    {
      saved := contact;
      updated := contacts;
      var index := 0;
      while index < |contacts|
        invariant 0 <= index <= |contacts|
        invariant forall k :: 0 <= k < index ==> contacts[k].id != contact.id
      {
        if contacts[index].id == contact.id {
          saved := saved.(createdAt := contacts[index].createdAt);
          updated := updated[index := saved];
          UpsertLists(contacts, updated, m, index, saved);
          return;
        }
        index := index + 1;
      }
      updated := updated + [saved];
      UpsertLists(contacts, updated, m, index, saved);
    }

    method SaveUserContact(contact: UserContact, born: Time, now: Time) returns (saved: UserContact)
      requires Valid()
      modifies this
      ensures Valid()
      ensures state == SaveContact(old(state), contact, born, now)
      ensures saved == SavedContact(old(state), contact, born, now)
      ensures forall user :: user != contact.userID ==> Stored(user) == old(Stored(user))
    {
      hide TrimSpace, ToLower, ContactLess;
      var normalized := NormalizeUserContact(contact);
      var id, createdAt := normalized.id, normalized.createdAt;
      if id == 0 {
        id := nextContactID;
        nextContactID := nextContactID + 1;
        if createdAt == 0 {
          createdAt := born;
        }
      }
      ghost var m := state.Of(contact.userID);
      var contacts;
      saved, contacts := Upsert(Stored(contact.userID), normalized.(id := id, createdAt := createdAt, updatedAt := now), m);
      ghost var before := contacts;
      contacts := SortUserContacts(contacts);
      ListsPermutation(before, contacts, m[id := saved]);
      Replace(contact.userID, contacts, m[id := saved]);
    }

    /** Stores a user's list and brings the auxiliary maps and counter up to date. */
    method Replace(user: int, contacts: seq<UserContact>, ghost m: map<int, UserContact>)
      requires Lists(contacts, m)
      requires userContacts.Keys == state.users.Keys
      requires forall u :: u in userContacts ==> Lists(userContacts[u], state.users[u])
      modifies `userContacts, `state
      ensures Valid() && state == ContactState(nextContactID, old(state).users[user := m])
      ensures forall u :: u != user ==> Stored(u) == old(Stored(u))
    {
      userContacts := userContacts[user := contacts];
      state := ContactState(nextContactID, state.users[user := m]);
    }

    method FindUserContact(user: int, id: int) returns (r: Option<UserContact>)
      requires Valid()
      ensures r == if id in state.Of(user) then Some(state.Of(user)[id]) else None
    {
      var contacts := Stored(user);
      for index := 0 to |contacts|
        invariant forall k :: 0 <= k < index ==> contacts[k].id != id
      {
        if contacts[index].id == id {
          return Some(contacts[index]);
        }
      }
      return None;
    }

    method ListUserContacts(user: int) returns (contacts: seq<UserContact>)
      requires Valid()
      ensures IsListing(contacts, state.Of(user))
    {
      contacts := SortUserContacts(Stored(user));
      ListsPermutation(Stored(user), contacts, state.Of(user));
    }

    method DeleteUserContact(user: int, id: int) returns (removed: bool)
      requires Valid()
      modifies this
      ensures Valid()
      ensures removed <==> id in old(state).Of(user)
      ensures state == DeleteContact(old(state), user, id)
      ensures forall other :: other != user ==> Stored(other) == old(Stored(other))
    {
      var filtered;
      filtered, removed := WithoutID(Stored(user), id, state.Of(user));
      if removed {
        Replace(user, filtered, state.Of(user) - {id});
      }
    }

    method WithoutID(contacts: seq<UserContact>, id: int, ghost m: map<int, UserContact>)
      returns (filtered: seq<UserContact>, removed: bool)
      requires Lists(contacts, m)
      ensures removed <==> id in m
      ensures Lists(filtered, m - {id})
    {
      filtered, removed := [], false;
      for index := 0 to |contacts|
        invariant filtered == Others(contacts[..index], id)
        invariant removed <==> exists k :: 0 <= k < index && contacts[k].id == id
      {
        assert contacts[..index + 1][..index] == contacts[..index];
        if contacts[index].id == id {
          removed := true;
        } else {
          filtered := filtered + [contacts[index]];
        }
      }
      assert contacts[..|contacts|] == contacts;
      OthersList(contacts, id, m);
    }
  }

  /** The contacts with another number. */
  function Others(list: seq<UserContact>, id: int): seq<UserContact> {
    if list == [] then []
    else Others(list[..|list| - 1], id) + if list[|list| - 1].id == id then [] else [list[|list| - 1]]
  }

  lemma {:induction false} OthersMembers(list: seq<UserContact>, id: int)
    ensures forall c :: c in Others(list, id) <==> c in list && c.id != id
  {
    if list != [] {
      OthersMembers(list[..|list| - 1], id);
      assert list == list[..|list| - 1] + [list[|list| - 1]];
    }
  }

  ghost predicate DistinctIDs(list: seq<UserContact>) {
    forall i, j :: 0 <= i < j < |list| ==> list[i].id != list[j].id
  }

  lemma SnocDistinct(list: seq<UserContact>, last: UserContact)
    requires DistinctIDs(list) && forall c :: c in list ==> c.id != last.id
    ensures DistinctIDs(list + [last])
  {
    forall i | 0 <= i < |list| ensures list[i].id != last.id { assert list[i] in list; }
  }

  lemma {:induction false} OthersDistinct(list: seq<UserContact>, id: int)
    requires DistinctIDs(list)
    ensures DistinctIDs(Others(list, id))
  {
    if list != [] {
      var n := |list| - 1;
      var init, last := list[..n], list[n];
      OthersDistinct(init, id);
      OthersMembers(init, id);
      forall c | c in init ensures c.id != last.id {
        var x :| 0 <= x < n && list[x] == c;
      }
      if last.id != id { SnocDistinct(Others(init, id), last); }
      assert Others(list, id) == Others(init, id) + if last.id == id then [] else [last];
    }
  }

  lemma OthersList(list: seq<UserContact>, id: int, m: map<int, UserContact>)
    requires Lists(list, m)
    ensures Lists(Others(list, id), m - {id})
    ensures id in m <==> exists k :: 0 <= k < |list| && list[k].id == id
  {
    OthersMembers(list, id);
    OthersDistinct(list, id);
    var r := Others(list, id);
    hide Others;
    forall i | 0 <= i < |r| ensures r[i].id in m - {id} && m[r[i].id] == r[i] { assert r[i] in r; }
    if id in m { assert m[id] in list; }
  }

  lemma UpsertLists(before: seq<UserContact>, after: seq<UserContact>, m: map<int, UserContact>, index: nat,
                    saved: UserContact)
    requires Lists(before, m) && index <= |before|
    requires forall k :: 0 <= k < index ==> before[k].id != saved.id
    requires index < |before| ==> before[index].id == saved.id
    requires after == if index < |before| then before[index := saved] else before + [saved]
    ensures Lists(after, m[saved.id := saved])
  {
    var m' := m[saved.id := saved];
    assert saved == after[index];
    forall id | id in m' ensures m'[id] in after {
      if id != saved.id {
        var k :| 0 <= k < |before| && before[k] == m[id];
        assert after[k] == m'[id];
      }
    }
  }
}
