/** FindCommand: shows the persons that match a FindPersonsPredicate and reports how many there are. */
module FindCommand {

  import opened FindPredicate
  import opened Model

  datatype FindCommand = FindCommand(findPredicate: FindPersonsPredicate)

  /** Messages.MESSAGE_PERSONS_LISTED_OVERVIEW filled in with a count; the wording is not part of this model. */
  const PersonsListedOverview: nat -> string

  /** execute: installs the predicate as the filter of the displayed list; it never fails. */
  method Execute(cmd: FindCommand, model: ModelManager) returns (r: CommandResult)
    modifies model
    ensures model.filter == AsFilter(cmd.findPredicate)
    ensures model.persons == old(model.persons) && model.comparator == old(model.comparator)
    ensures forall p :: p in model.FilteredPersonList() <==> p in model.persons && Test(cmd.findPredicate, p)
    ensures |model.FilteredPersonList()| == |Select(model.persons, AsFilter(cmd.findPredicate))|
    ensures r == CommandResult(PersonsListedOverview(|model.FilteredPersonList()|))
  {
    model.UpdateFilteredPersonList(AsFilter(cmd.findPredicate));
    r := CommandResult(PersonsListedOverview(|model.FilteredPersonList()|));
  }
}
