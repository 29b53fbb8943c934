/** The contacts view (components/Contacts.tsx): the search over the contact
    list, the form a new contact starts from, and the record a Save sends. */
module Contacts {
  import opened Wrappers
  import Seqs
  import Strings
  import opened Crm

  /** `field?.toLowerCase() || ''`: a missing field searches as "". */
  function Searchable(field: Option<string>): string
  {
    Strings.Lower(field.GetOr(""))
  }

  /** The predicate of `filteredContacts`. */
  predicate Matches(c: Contact, term: string)
  {
    var t := Strings.Lower(term);
    Strings.Includes(Searchable(c.name), t) || Strings.Includes(Searchable(c.company), t) ||
      Strings.Includes(Searchable(c.email), t)
  }

  function MatchTest(term: string): Contact -> bool
  {
    (c: Contact) => Matches(c, term)
  }

  /** `filteredContacts`. */
  function FilterContacts(contacts: seq<Contact>, term: string): seq<Contact>
  {
    Seqs.Filter(contacts, MatchTest(term))
  }

  /** A contact is kept exactly when the lower-cased term occurs somewhere in
      its lower-cased name, company or email, a missing one counting as "";
      the kept contacts keep their order. */
  lemma FilterContactsExactly(contacts: seq<Contact>, term: string)
    ensures forall c :: c in FilterContacts(contacts, term) <==> (c in contacts &&
      ((exists i :: Strings.OccursAt(Searchable(c.name), Strings.Lower(term), i)) ||
       (exists i :: Strings.OccursAt(Searchable(c.company), Strings.Lower(term), i)) ||
       (exists i :: Strings.OccursAt(Searchable(c.email), Strings.Lower(term), i))))
    ensures Seqs.IsSubsequence(FilterContacts(contacts, term), contacts)
  {
    forall c: Contact
      ensures Matches(c, term) <==>
        ((exists i :: Strings.OccursAt(Searchable(c.name), Strings.Lower(term), i)) ||
         (exists i :: Strings.OccursAt(Searchable(c.company), Strings.Lower(term), i)) ||
         (exists i :: Strings.OccursAt(Searchable(c.email), Strings.Lower(term), i)))
    {
      Strings.IncludesAtSomePosition(Searchable(c.name), Strings.Lower(term));
      Strings.IncludesAtSomePosition(Searchable(c.company), Strings.Lower(term));
      Strings.IncludesAtSomePosition(Searchable(c.email), Strings.Lower(term));
    }
    Seqs.FilterIsSubsequence(contacts, MatchTest(term));
  }

  /** An empty search keeps every contact, whatever fields they lack. */
  lemma EmptySearchKeepsAll(contacts: seq<Contact>)
    ensures FilterContacts(contacts, "") == contacts
  {
    forall c: Contact ensures Matches(c, "") {
      assert Strings.Lower("") == "";
      Strings.IncludesEmpty(Searchable(c.name));
    }
    Seqs.FilterKeepsAll(contacts, MatchTest(""));
  }

  /** `handleAddNew`: a new contact form starts with status Active only. */
  function NewContactForm(): (form: Contact)
    ensures form.status == Some(Active) && form.id.None?
  {
    Contact(None, None, None, None, None, None, Some(Active))
  }

  /** `contactToSave`: company, role and phone become "" when missing or
      empty, every other field is kept. */
  function ContactToSave(c: Contact): Contact
  {
    c.(company := Some(c.company.GetOr("")), role := Some(c.role.GetOr("")), phone := Some(c.phone.GetOr("")))
  }

  lemma ContactToSaveDefaults(c: Contact)
    ensures var saved := ContactToSave(c);
      saved.company.Some? && saved.role.Some? && saved.phone.Some? &&
      (c.company.Some? ==> saved.company == c.company) &&
      (c.role.Some? ==> saved.role == c.role) &&
      (c.phone.Some? ==> saved.phone == c.phone) &&
      (c.company.None? ==> saved.company == Some("")) &&
      (c.role.None? ==> saved.role == Some("")) &&
      (c.phone.None? ==> saved.phone == Some("")) &&
      saved.id == c.id && saved.name == c.name && saved.email == c.email && saved.status == c.status
    ensures ContactToSave(ContactToSave(c)) == ContactToSave(c)
  {
  }

  /** `handleSaveContact`: update only when editing a contact with an id,
      otherwise create; either way the normalised record is sent. */
  function SaveContact(isEditing: bool, current: Contact): (call: SaveCall<Contact>)
    ensures call.UpdateCall? <==> isEditing && current.id.Some? && current.id.value != ""
    ensures call.record == ContactToSave(current)
  {
    SaveDispatch(isEditing, current.id, ContactToSave(current))
  }
}
