/**
 * EditCommand: edits the person at a one-based position of the displayed list by overlaying
 * the fields set in an EditPersonDescriptor, refuses an edit that would make the person the
 * same as another displayed person, and afterwards shows the whole store in original order.
 */
module EditCommand {

  import opened Wrappers
  import opened Commons
  import opened Person
  import opened Model

  /**
   * EditPersonDescriptor: each field that is set replaces the person's value. An unset field
   * is None (a null field of the Java class); `tags == Some({})` clears the tags.
   */
  datatype EditPersonDescriptor = EditPersonDescriptor(
    name: Option<Name>,
    phone: Option<Phone>,
    email: Option<Email>,
    address: Option<Address>,
    policy: Option<Policy>,
    renewalDate: Option<RenewalDate>,
    policyType: Option<PolicyType>,
    tags: Option<set<Tag>>,
    note: Option<Note>)

  /** A freshly constructed descriptor: nothing set. */
  const NoEdits := EditPersonDescriptor(None, None, None, None, None, None, None, None, None)

  /** isAnyFieldEdited */
  function IsAnyFieldEdited(d: EditPersonDescriptor): (b: bool)
    ensures b <==> d != NoEdits
  {
    d.name.Some? || d.phone.Some? || d.email.Some? || d.address.Some? || d.policy.Some?
    || d.renewalDate.Some? || d.policyType.Some? || d.tags.Some? || d.note.Some?
  }

  /** Some part of the policy (its number, renewal date or type) is edited. */
  predicate IsPolicyEdited(d: EditPersonDescriptor) {
    d.policy.Some? || d.renewalDate.Some? || d.policyType.Some?
  }

  /**
   * The policy of the edited person. When any policy part is edited a new policy is built:
   * only the number is taken from the descriptor's policy, the renewal date and the type come
   * from the descriptor's own fields, and each part not given is the old policy's.
   */
  function EditedPolicy(current: Policy, d: EditPersonDescriptor): Policy {
    if IsPolicyEdited(d) then
      Policy(
        if d.policy.Some? then d.policy.value.policyNumber else current.policyNumber,
        d.renewalDate.GetOr(current.renewalDate),
        d.policyType.GetOr(current.policyType))
    else current
  }

  /** createEditedPerson: every field the descriptor sets is replaced, every unset field is kept. */
  function CreateEditedPerson(personToEdit: Person, d: EditPersonDescriptor): (r: Person)
    ensures d.name.None? ==> r.name == personToEdit.name
    ensures d.name.Some? ==> r.name == d.name.value
    ensures d.phone.None? ==> r.phone == personToEdit.phone
    ensures d.phone.Some? ==> r.phone == d.phone.value
    ensures d.email.None? ==> r.email == personToEdit.email
    ensures d.email.Some? ==> r.email == d.email.value
    ensures d.address.None? ==> r.address == personToEdit.address
    ensures d.address.Some? ==> r.address == d.address.value
    ensures d.tags.None? ==> r.tags == personToEdit.tags
    ensures d.tags.Some? ==> r.tags == d.tags.value
    ensures d.note.None? ==> r.note == personToEdit.note
    ensures d.note.Some? ==> r.note == d.note.value
  {
    Person(
      d.name.GetOr(personToEdit.name),
      d.phone.GetOr(personToEdit.phone),
      d.email.GetOr(personToEdit.email),
      d.address.GetOr(personToEdit.address),
      EditedPolicy(personToEdit.policy, d),
      d.note.GetOr(personToEdit.note),
      d.tags.GetOr(personToEdit.tags))
  }

  /** With no policy part edited the person keeps the very same policy. */
  lemma PolicyKeptUnlessEdited(p: Person, d: EditPersonDescriptor)
    requires !IsPolicyEdited(d)
    ensures CreateEditedPerson(p, d).policy == p.policy
  {
  }

  /**
   * With some policy part edited, the number comes from the descriptor's policy and the date
   * and type from the descriptor's own fields, each falling back to the old policy.
   */
  lemma PolicyPartsOverlaid(p: Person, d: EditPersonDescriptor)
    requires IsPolicyEdited(d)
    ensures var q := CreateEditedPerson(p, d).policy;
      q.policyNumber == (if d.policy.Some? then d.policy.value.policyNumber else p.policy.policyNumber) &&
      q.renewalDate == (if d.renewalDate.Some? then d.renewalDate.value else p.policy.renewalDate) &&
      q.policyType == (if d.policyType.Some? then d.policyType.value else p.policy.policyType)
  {
  }

  /**
   * The renewal date and type inside the descriptor's policy are never used: two descriptors
   * whose policies share a number edit every person alike.
   */
  lemma OnlyPolicyNumberIsTaken(p: Person, d: EditPersonDescriptor, q: Policy)
    requires d.policy.Some? && q.policyNumber == d.policy.value.policyNumber
    ensures CreateEditedPerson(p, d.(policy := Some(q))) == CreateEditedPerson(p, d)
  {
  }

  /** An empty descriptor leaves the person as it is. */
  lemma NoEditsIsIdentity(p: Person)
    ensures CreateEditedPerson(p, NoEdits) == p
  {
  }

  /** Applying the same edit twice is the same as applying it once. */
  lemma OverlayIdempotent(p: Person, d: EditPersonDescriptor)
    ensures CreateEditedPerson(CreateEditedPerson(p, d), d) == CreateEditedPerson(p, d)
  {
  }

  /** The descriptor whose set fields are those of later, then those of earlier. */
  function Then(earlier: EditPersonDescriptor, later: EditPersonDescriptor): EditPersonDescriptor {
    EditPersonDescriptor(
      if later.name.Some? then later.name else earlier.name,
      if later.phone.Some? then later.phone else earlier.phone,
      if later.email.Some? then later.email else earlier.email,
      if later.address.Some? then later.address else earlier.address,
      if later.policy.Some? then later.policy else earlier.policy,
      if later.renewalDate.Some? then later.renewalDate else earlier.renewalDate,
      if later.policyType.Some? then later.policyType else earlier.policyType,
      if later.tags.Some? then later.tags else earlier.tags,
      if later.note.Some? then later.note else earlier.note)
  }

  /** Two edits in a row are one edit with the later values winning, policy parts included. */
  lemma OverlayComposes(p: Person, d1: EditPersonDescriptor, d2: EditPersonDescriptor)
    ensures CreateEditedPerson(CreateEditedPerson(p, d1), d2) == CreateEditedPerson(p, Then(d1, d2))
  {
  }

  /** `p` would clash with `edited`: it is not the person being edited yet is the same person. */
  predicate Clashes(p: Person, personToEdit: Person, edited: Person) {
    p != personToEdit && IsSamePerson(p, edited)
  }

  /** The stream filter(...).findFirst() of execute: the first displayed person that clashes. */
  function FirstClash(shown: seq<Person>, personToEdit: Person, edited: Person): (r: Option<Person>)
    ensures r.None? <==> forall j :: 0 <= j < |shown| ==> !Clashes(shown[j], personToEdit, edited)
    ensures r.Some? ==> exists j :: 0 <= j < |shown| && shown[j] == r.value
                          && Clashes(shown[j], personToEdit, edited)
                          && forall k :: 0 <= k < j ==> !Clashes(shown[k], personToEdit, edited)
  {
    if shown == [] then None
    else if Clashes(shown[0], personToEdit, edited) then Some(shown[0])
    else
      var rest := FirstClash(shown[1..], personToEdit, edited);
      assert forall j :: 1 <= j < |shown| ==> shown[j] == shown[1..][j - 1];
      rest
  }

  datatype EditCommand = EditCommand(index: Index, descriptor: EditPersonDescriptor)

  datatype CommandError =
    | InvalidPersonDisplayedIndex     // Messages.MESSAGE_INVALID_PERSON_DISPLAYED_INDEX
    | DuplicatePerson(reason: string) // MESSAGE_DUPLICATE_PERSON with getDuplicateReason filled in

  const EditPersonSuccessPrefix := "Edited Person: "

  /** execute */
  method Execute(cmd: EditCommand, model: ModelManager) returns (r: Result<CommandResult, CommandError>)
    modifies model
    // an index past the end of the displayed list is refused first
    ensures cmd.index.zeroBased >= |old(model.FilteredPersonList())| <==> r == Err(InvalidPersonDisplayedIndex)
    // the edit is refused when it would make the person the same as another displayed person
    ensures cmd.index.zeroBased < |old(model.FilteredPersonList())| ==>
      var shown := old(model.FilteredPersonList());
      var personToEdit := shown[cmd.index.zeroBased];
      var edited := CreateEditedPerson(personToEdit, cmd.descriptor);
      match FirstClash(shown, personToEdit, edited)
      case Some(other) => r == Err(DuplicatePerson(DuplicateReason(edited, other)))
      case None =>
        && r == Ok(CommandResult(EditPersonSuccessPrefix + Format(edited)))
        && model.persons == ReplaceFirst(old(model.persons), personToEdit, edited)
        && model.filter == ShowAll && model.comparator == None
    // a refused edit changes nothing
    ensures r.Err? ==> model.persons == old(model.persons) && model.filter == old(model.filter)
                       && model.comparator == old(model.comparator)
    // after a successful edit the whole store is displayed in original order
    ensures r.Ok? ==> model.FilteredPersonList() == model.persons
  {
    var lastShownList := model.FilteredPersonList();
    if cmd.index.zeroBased >= |lastShownList| {
      return Err(InvalidPersonDisplayedIndex);
    }
    var personToEdit := lastShownList[cmd.index.zeroBased];
    var editedPerson := CreateEditedPerson(personToEdit, cmd.descriptor);
    var duplicatePerson := FirstClash(model.FilteredPersonList(), personToEdit, editedPerson);
    if duplicatePerson.Some? {
      return Err(DuplicatePerson(DuplicateReason(editedPerson, duplicatePerson.value)));
    }
    model.SetPerson(personToEdit, editedPerson);
    model.UpdateFilteredPersonList(ShowAll);
    model.UpdateSortedPersonList(None);
    ShowAllOriginalOrder(model.persons);
    r := Ok(CommandResult(EditPersonSuccessPrefix + Format(editedPerson)));
  }
}
