/**
 * FindCommand.FindPersonsPredicate: up to three sub-predicates (name keywords, phone
 * numbers, policy numbers), a person matches when any sub-predicate that is set matches.
 * The sub-predicates' own tests are not part of this model and are uninterpreted.
 */
module FindPredicate {

  import opened Wrappers
  import opened Person

  datatype NameContainsKeywordsPredicate = NameContainsKeywordsPredicate(keywords: set<Name>)
  datatype PhoneContainsNumbersPredicate = PhoneContainsNumbersPredicate(numbers: set<Phone>)
  datatype PolicyContainsNumbersPredicate = PolicyContainsNumbersPredicate(numbers: set<Policy>)

  /** NameContainsKeywordsPredicate.test */
  const NameMatches: (NameContainsKeywordsPredicate, Person) -> bool
  /** PhoneContainsNumbersPredicate.test */
  const PhoneMatches: (PhoneContainsNumbersPredicate, Person) -> bool
  /** PolicyContainsNumbersPredicate.test */
  const PolicyMatches: (PolicyContainsNumbersPredicate, Person) -> bool

  /** An unset sub-predicate is None (a null field in the Java class). */
  datatype FindPersonsPredicate = FindPersonsPredicate(
    namePredicate: Option<NameContainsKeywordsPredicate>,
    phonePredicate: Option<PhoneContainsNumbersPredicate>,
    policyPredicate: Option<PolicyContainsNumbersPredicate>)

  /** What `new FindPersonsPredicate()` holds before any setter is called. */
  const NoCriteria := FindPersonsPredicate(None, None, None)

  /** isAnyPredicateSet */
  function IsAnyPredicateSet(fp: FindPersonsPredicate): (b: bool)
    ensures b <==> fp != NoCriteria
  {
    fp.namePredicate.Some? || fp.phonePredicate.Some? || fp.policyPredicate.Some?
  }

  /** test: each sub-predicate that is set is applied, an unset one counts as false, and the results are OR-ed. */
  function Test(fp: FindPersonsPredicate, person: Person): (b: bool)
    ensures b ==> IsAnyPredicateSet(fp)
  {
    var nameMatch := match fp.namePredicate case Some(pred) => NameMatches(pred, person) case None => false;
    var phoneMatch := match fp.phonePredicate case Some(pred) => PhoneMatches(pred, person) case None => false;
    var policyMatch := match fp.policyPredicate case Some(pred) => PolicyMatches(pred, person) case None => false;
    nameMatch || phoneMatch || policyMatch
  }

  /** The FindPersonsPredicate seen as the Predicate<Person> it implements. */
  function AsFilter(fp: FindPersonsPredicate): (f: Person -> bool)
    ensures forall person :: f(person) == Test(fp, person)
  {
    person => Test(fp, person)
  }

  /** With no sub-predicate set, nobody matches. */
  lemma NoCriteriaMatchesNobody(fp: FindPersonsPredicate, person: Person)
    requires !IsAnyPredicateSet(fp)
    ensures !Test(fp, person)
  {
  }

  /** fp2 keeps every sub-predicate that fp1 sets, and possibly sets more. */
  predicate Extends(fp2: FindPersonsPredicate, fp1: FindPersonsPredicate) {
    (fp1.namePredicate.Some? ==> fp2.namePredicate == fp1.namePredicate) &&
    (fp1.phonePredicate.Some? ==> fp2.phonePredicate == fp1.phonePredicate) &&
    (fp1.policyPredicate.Some? ==> fp2.policyPredicate == fp1.policyPredicate)
  }

  /** Setting an additional sub-predicate never drops a person who already matched. */
  lemma SettingMoreKeepsMatches(fp1: FindPersonsPredicate, fp2: FindPersonsPredicate, person: Person)
    requires Extends(fp2, fp1)
    ensures Test(fp1, person) ==> Test(fp2, person)
  {
  }

  /** A person matches exactly when one of the sub-predicates that are set accepts the person. */
  lemma TestIsDisjunctionOfSetSubpredicates(fp: FindPersonsPredicate, person: Person)
    ensures Test(fp, person) <==>
      (fp.namePredicate.Some? && NameMatches(fp.namePredicate.value, person)) ||
      (fp.phonePredicate.Some? && PhoneMatches(fp.phonePredicate.value, person)) ||
      (fp.policyPredicate.Some? && PolicyMatches(fp.policyPredicate.value, person))
  {
  }
}
