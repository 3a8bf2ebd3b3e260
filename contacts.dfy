/** The contact collection of models/contacts.js: an ordered sequence of
    records, each a string-keyed map, with lookup, removal, creation and
    shallow-merge update by the "id" key.  The JSON file the source reads and
    rewrites on every call is modelled as the `contacts` field of a
    `ContactStore` object; each method performs one whole
    load-modify-store cycle atomically. */
module Contacts {

  datatype Option<T> = None | Some(value: T)

  /** A contact as JavaScript sees it after `JSON.parse`: a plain object,
      here a finite map from property names to string values. */
  type Contact = map<string, string>

  /** The property the source looks records up by. */
  const IdKey: string := "id"

  /** `contact.id === contactId`: a record without an "id" property has
      `undefined` there, which is never strictly equal to a string. */
  predicate HasId(c: Contact, id: string)
  {
    IdKey in c && c[IdKey] == id
  }

  /** `i` is the position of the earliest record in `cs` carrying `id`. */
  predicate IsFirstMatch(cs: seq<Contact>, id: string, i: nat)
  {
    i < |cs| && HasId(cs[i], id) && forall j :: 0 <= j < i ==> !HasId(cs[j], id)
  }

  /** Some record of `cs` carries `id`. */
  predicate AnyMatch(cs: seq<Contact>, id: string)
  {
    exists j :: 0 <= j < |cs| && HasId(cs[j], id)
  }

  /** `Array.prototype.findIndex` with the id test, with -1 written None. */
  function FindIndex(cs: seq<Contact>, id: string): (r: Option<nat>)
    ensures r.Some? ==> IsFirstMatch(cs, id, r.value)
    ensures r.None? <==> !AnyMatch(cs, id)
  {
    if |cs| == 0 then None
    else if HasId(cs[0], id) then Some(0)
    else match FindIndex(cs[1..], id)
      case None => None
      case Some(k) => Some(k + 1)
  }

  /** `contacts.find(contact => contact.id === contactId) || null`: the
      earliest record carrying `id`, or None.  (A found object is always
      truthy, so `|| null` only turns `undefined` into `null`.) */
  function Find(cs: seq<Contact>, id: string): (r: Option<Contact>)
    ensures r.None? <==> !AnyMatch(cs, id)
    ensures r.Some? ==> exists i: nat :: IsFirstMatch(cs, id, i) && r.value == cs[i]
  {
    match FindIndex(cs, id)
    case None => None
    case Some(i) => Some(cs[i])
  }

  /** The number of records in `cs` carrying `id`. */
  function Count(cs: seq<Contact>, id: string): (n: nat)
    ensures n <= |cs|
    ensures n == 0 <==> !AnyMatch(cs, id)
  {
    if |cs| == 0 then 0
    else (if HasId(cs[0], id) then 1 else 0) + Count(cs[1..], id)
  }

  /** `contacts.filter(contact => contact.id !== contactId)`. */
  function Without(cs: seq<Contact>, id: string): (r: seq<Contact>)
    ensures |r| == |cs| - Count(cs, id)
    ensures forall i :: 0 <= i < |r| ==> !HasId(r[i], id)
    ensures forall c :: c in r ==> c in cs
  {
    if |cs| == 0 then []
    else (if HasId(cs[0], id) then [] else [cs[0]]) + Without(cs[1..], id)
  }

  /** Object spread `{ ...a, ...b }`: every property of either side, the
      right-hand side winning where both have one. */
  function Merge(a: Contact, b: Contact): (r: Contact)
    ensures r.Keys == a.Keys + b.Keys
    ensures forall k :: k in b ==> r[k] == b[k]
    ensures forall k :: k in a && k !in b ==> r[k] == a[k]
  {
    a + b
  }

  /** `{ id: generatedId, ...newContact }`: the input's properties plus the
      generated id, which an "id" property of the input overrides. */
  function NewRecord(newContact: Contact, generatedId: string): (r: Contact)
    ensures r.Keys == newContact.Keys + {IdKey}
    ensures forall k :: k in newContact ==> r[k] == newContact[k]
    ensures IdKey !in newContact ==> HasId(r, generatedId)
  {
    Merge(map[IdKey := generatedId], newContact)
  }

  /** The backing store of models/contacts.js. */
  class ContactStore {
    var contacts: seq<Contact>

    /** The store as the file holds it at start-up. */
    constructor (initial: seq<Contact>)
      ensures contacts == initial
    {
      contacts := initial;
    }

    /** `listContacts`: the whole collection in stored order. */
    method ListContacts() returns (r: seq<Contact>)
      ensures r == contacts
    {
      r := contacts;
    }

    /** `getContactById`: the earliest record with that id, or None. */
    method GetContactById(contactId: string) returns (r: Option<Contact>)
      ensures r.None? <==> !AnyMatch(contacts, contactId)
      ensures r.Some? ==> exists i: nat :: IsFirstMatch(contacts, contactId, i) && r.value == contacts[i]
    {
      var loaded := ListContacts();
      r := Find(loaded, contactId);
    }

    /** `removeContact`: drops every record with that id; when none has it,
        reports false (the source's null) and writes nothing. */
    method RemoveContact(contactId: string) returns (removed: bool)
      modifies this
      ensures removed <==> AnyMatch(old(contacts), contactId)
      ensures !removed ==> contacts == old(contacts)
      ensures removed ==> contacts == Without(old(contacts), contactId)
      ensures forall i :: 0 <= i < |contacts| ==> !HasId(contacts[i], contactId)
      ensures |contacts| == |old(contacts)| - Count(old(contacts), contactId)
    {
      var loaded := ListContacts();
      var remaining := Without(loaded, contactId);
      if |loaded| == |remaining| {
        return false;
      }
      contacts := remaining;
      removed := true;
    }

    /** `addContact`: appends the input with the generated id (the source's
        `Date.now().toString()`, a parameter here) and returns that record. */
    method AddContact(newContact: Contact, generatedId: string) returns (contact: Contact)
      modifies this
      ensures contact == NewRecord(newContact, generatedId)
      ensures contacts == old(contacts) + [contact]
    {
      var loaded := ListContacts();
      contact := NewRecord(newContact, generatedId);
      loaded := loaded + [contact];
      contacts := loaded;
    }

    /** `updateContact`: merges `updates` over the earliest record with that
        id, leaving every other position alone, and returns the merged
        record; None (the source's null) and no write when none matches. */
    method UpdateContact(contactId: string, updates: Contact) returns (r: Option<Contact>)
      modifies this
      ensures r.None? <==> !AnyMatch(old(contacts), contactId)
      ensures r.None? ==> contacts == old(contacts)
      ensures r.Some? ==>
        exists i: nat :: (IsFirstMatch(old(contacts), contactId, i)
                          && r.value == Merge(old(contacts)[i], updates)
                          && contacts == old(contacts)[i := r.value])
    {
      var loaded := ListContacts();
      var index := FindIndex(loaded, contactId);
      if index.None? {
        return None;
      }
      var i := index.value;
      loaded := loaded[i := Merge(loaded[i], updates)];
      contacts := loaded;
      r := Some(loaded[i]);
    }
  }

  // ---------------------------------------------------------------------
  // Properties of the collection algebra

  /** Filtering distributes over concatenation: survivors keep their
      relative order. */
  lemma {:induction false} WithoutConcat(a: seq<Contact>, b: seq<Contact>, id: string)
    ensures Without(a + b, id) == Without(a, id) + Without(b, id)
  {
    if |a| == 0 {
      assert a + b == b;
    } else {
      assert (a + b)[1..] == a[1..] + b;
      WithoutConcat(a[1..], b, id);
    }
  }

  /** Filtering keeps every occurrence of a record without the id and no
      occurrence of one with it. */
  lemma {:induction false} WithoutMultiset(cs: seq<Contact>, id: string, c: Contact)
    ensures multiset(Without(cs, id))[c] == if HasId(c, id) then 0 else multiset(cs)[c]
  {
    if |cs| > 0 {
      WithoutMultiset(cs[1..], id, c);
      assert cs == [cs[0]] + cs[1..];
      assert multiset(cs) == multiset([cs[0]]) + multiset(cs[1..]);
    }
  }

  /** Removing twice removes nothing more. */
  lemma {:induction false} WithoutIdempotent(cs: seq<Contact>, id: string)
    ensures Without(Without(cs, id), id) == Without(cs, id)
  {
    if |cs| > 0 {
      WithoutIdempotent(cs[1..], id);
      var head := if HasId(cs[0], id) then [] else [cs[0]];
      WithoutConcat(head, Without(cs[1..], id), id);
    }
  }

  /** The length test of removeContact detects exactly whether some record
      carried the id. */
  lemma WithoutUnchangedIff(cs: seq<Contact>, id: string)
    ensures |Without(cs, id)| == |cs| <==> Without(cs, id) == cs
    ensures Without(cs, id) == cs <==> !AnyMatch(cs, id)
  {
    if !AnyMatch(cs, id) {
      WithoutNoMatch(cs, id);
    }
  }

  /** Filtering a sequence with no record carrying the id gives it back. */
  lemma {:induction false} WithoutNoMatch(cs: seq<Contact>, id: string)
    requires !AnyMatch(cs, id)
    ensures Without(cs, id) == cs
  {
    if |cs| > 0 {
      assert !HasId(cs[0], id);
      assert !AnyMatch(cs[1..], id) by {
        forall j | 0 <= j < |cs[1..]| ensures !HasId(cs[1..][j], id) {
          assert cs[1..][j] == cs[j + 1];
        }
      }
      WithoutNoMatch(cs[1..], id);
      assert cs == [cs[0]] + cs[1..];
    }
  }

  /** Lookup after appending: an earlier record with the id still wins, so
      a colliding generated id hides the new record from lookup. */
  lemma FindAppend(cs: seq<Contact>, c: Contact, id: string)
    ensures Find(cs + [c], id) ==
      if AnyMatch(cs, id) then Find(cs, id)
      else if HasId(c, id) then Some(c)
      else None
  {
    var ext := cs + [c];
    if AnyMatch(cs, id) {
      var i := FindIndex(cs, id).value;
      assert IsFirstMatch(ext, id, i);
      FirstMatchUnique(ext, id, i, FindIndex(ext, id).value);
    } else if HasId(c, id) {
      assert IsFirstMatch(ext, id, |cs|);
      FirstMatchUnique(ext, id, |cs|, FindIndex(ext, id).value);
    } else {
      assert !AnyMatch(ext, id) by {
        forall j | 0 <= j < |ext| ensures !HasId(ext[j], id) {
          if j < |cs| { assert ext[j] == cs[j]; }
        }
      }
    }
  }

  /** There is only one earliest match. */
  lemma FirstMatchUnique(cs: seq<Contact>, id: string, i: nat, j: nat)
    requires IsFirstMatch(cs, id, i) && IsFirstMatch(cs, id, j)
    ensures i == j
  {
  }

  /** Create, then fetch by the returned id: with a fresh generated id and an input without an "id"
      property, lookup returns exactly the created record, which holds the
      input's properties and the generated id. */
  lemma AddThenGet(cs: seq<Contact>, newContact: Contact, generatedId: string)
    requires !AnyMatch(cs, generatedId)
    requires IdKey !in newContact
    ensures Find(cs + [NewRecord(newContact, generatedId)], generatedId)
            == Some(NewRecord(newContact, generatedId))
    ensures NewRecord(newContact, generatedId) - {IdKey} == newContact
  {
    FindAppend(cs, NewRecord(newContact, generatedId), generatedId);
  }

  /** An "id" property of the input replaces the generated id: lookup by
      the generated id then cannot reach the new record. */
  lemma AddWithIdKeyIgnoresGeneratedId(cs: seq<Contact>, newContact: Contact, generatedId: string)
    requires !AnyMatch(cs, generatedId)
    requires IdKey in newContact && newContact[IdKey] != generatedId
    ensures Find(cs + [NewRecord(newContact, generatedId)], generatedId) == None
    ensures Find(cs + [NewRecord(newContact, generatedId)], newContact[IdKey]).Some?
  {
    var rec := NewRecord(newContact, generatedId);
    FindAppend(cs, rec, generatedId);
    FindAppend(cs, rec, newContact[IdKey]);
  }

  /** After removal, lookup by that id finds nothing, and records with
      other ids are still found as before. */
  lemma RemoveThenGet(cs: seq<Contact>, id: string, other: string)
    requires other != id
    ensures Find(Without(cs, id), id) == None
    ensures Find(Without(cs, id), other) == Find(cs, other)
  {
    FindWithoutOther(cs, id, other);
  }

  lemma {:induction false} FindWithoutOther(cs: seq<Contact>, id: string, other: string)
    requires other != id
    ensures Find(Without(cs, id), other) == Find(cs, other)
  {
    if |cs| > 0 {
      FindWithoutOther(cs[1..], id, other);
      FindCons(cs[0], cs[1..], other);
      assert cs == [cs[0]] + cs[1..];
      if HasId(cs[0], id) {
        assert Without(cs, id) == [] + Without(cs[1..], id) == Without(cs[1..], id);
      } else {
        assert Without(cs, id) == [cs[0]] + Without(cs[1..], id);
        FindCons(cs[0], Without(cs[1..], id), other);
      }
    }
  }

  /** Lookup on a sequence with a given first record. */
  lemma FindCons(c: Contact, cs: seq<Contact>, id: string)
    ensures Find([c] + cs, id) == if HasId(c, id) then Some(c) else Find(cs, id)
  {
    assert ([c] + cs)[1..] == cs;
  }

  /** Update, then fetch: when `updates` carries no "id" property the merged
      record keeps the id, is found at the same place, and the number of
      records carrying that id is unchanged (later duplicates stay put). */
  lemma UpdateThenGet(cs: seq<Contact>, id: string, updates: Contact, i: nat)
    requires IsFirstMatch(cs, id, i)
    requires IdKey !in updates
    ensures Find(cs[i := Merge(cs[i], updates)], id) == Some(Merge(cs[i], updates))
    ensures Count(cs[i := Merge(cs[i], updates)], id) == Count(cs, id)
  {
    var m := Merge(cs[i], updates);
    var cs' := cs[i := m];
    assert IsFirstMatch(cs', id, i);
    FirstMatchUnique(cs', id, i, FindIndex(cs', id).value);
    CountReplace(cs, id, i, m);
  }

  /** Replacing a record by one with the same id status keeps the count. */
  lemma {:induction false} CountReplace(cs: seq<Contact>, id: string, i: nat, c: Contact)
    requires i < |cs| && (HasId(c, id) <==> HasId(cs[i], id))
    ensures Count(cs[i := c], id) == Count(cs, id)
  {
    if i > 0 {
      CountReplace(cs[1..], id, i - 1, c);
      assert cs[i := c][1..] == cs[1..][i - 1 := c];
    } else {
      assert cs[i := c][1..] == cs[1..];
    }
  }

  /** An "id" property in the update payload that differs from the looked-up
      id rewrites the stored id: the merged record no longer carries the old
      id, and lookup by the old id falls through to a later duplicate, if
      any. */
  lemma UpdateCanRewriteId(cs: seq<Contact>, id: string, updates: Contact, i: nat)
    requires IsFirstMatch(cs, id, i)
    requires IdKey in updates && updates[IdKey] != id
    ensures !HasId(cs[i := Merge(cs[i], updates)][i], id)
    ensures Find(cs[i := Merge(cs[i], updates)], id) == Find(cs[i + 1..], id)
  {
    var m := Merge(cs[i], updates);
    var cs' := cs[i := m];
    assert cs' == cs[..i] + ([m] + cs[i + 1..]);
    assert !AnyMatch(cs[..i], id) by {
      forall j | 0 <= j < i ensures !HasId(cs[..i][j], id) {
        assert cs[..i][j] == cs[j];
      }
    }
    FindSkipNoMatch(cs[..i], [m] + cs[i + 1..], id);
    FindCons(m, cs[i + 1..], id);
  }

  /** A prefix with no record carrying the id does not affect lookup. */
  lemma {:induction false} FindSkipNoMatch(p: seq<Contact>, s: seq<Contact>, id: string)
    requires !AnyMatch(p, id)
    ensures Find(p + s, id) == Find(s, id)
  {
    if |p| > 0 {
      assert !HasId(p[0], id);
      assert !AnyMatch(p[1..], id) by {
        forall j | 0 <= j < |p[1..]| ensures !HasId(p[1..][j], id) {
          assert p[1..][j] == p[j + 1];
        }
      }
      FindSkipNoMatch(p[1..], s, id);
      FindCons(p[0], p[1..] + s, id);
      assert p + s == [p[0]] + (p[1..] + s);
    } else {
      assert p + s == s;
    }
  }
}
