# Edit and find commands of an insurance-agent address book, in Dafny

This project models the edit and find command layer of an address book for insurance agents.
The book stores persons with a name, phone, email, address, a policy (number, renewal date and type), a note and tags.

- **ParserUtil.** Trims each raw string and checks it with the field's validator. It then builds the field value, or fails with that field's constraint message. Its collection parsers turn a list of strings into a set, and fail at the first bad element. `parseIndex` reads a one-based index.
- **EditCommandParser.** Reads the index from the preamble and refuses repeated single-valued prefixes. It then parses the value of each prefix that is present, in a fixed order. The `t/` prefix has a special case: a single empty value clears the tags. An edit that sets no field is refused.
- **EditCommand.** Overlays the fields set in an `EditPersonDescriptor` onto the person at the given position of the displayed list. A policy is rebuilt from its three parts: the number, the renewal date and the type. The edit is refused if the edited person would be "the same person" as another displayed person. After a successful edit the whole store is shown in original order.
- **FindCommand.** Installs a `FindPersonsPredicate` as the filter of the displayed list, and reports how many persons are shown. The predicate ORs the name, phone and policy sub-predicates that are set.

Modules:

- `Wrappers`: Option and Result.
- `Commons`: `String.trim`, decimal numerals, `StringUtil.isNonZeroUnsignedInteger`, `Index`.
- `Person`: the field value types, plus the validators and identity checks, left uninterpreted.
- `Arguments`: prefixes and the argument multimap.
- `ParserUtil`, `FindPredicate`, `EditCommand`, `EditCommandParser` and `FindCommand`: one module per source class.
- `Model`: a `ModelManager` class holding three things:
  - the store, as a sequence of persons;
  - the filter;
  - the optional comparator.

  The displayed list is always computed from these three.

Most code outside the four modelled classes is an uninterpreted function, so the properties proved here hold whatever that code does. This covers:

- the field validators;
- `isSamePerson` and `getDuplicateReason`;
- `Messages.format`;
- the sub-predicates' `test`;
- `PolicyType.fromString`;
- `parseNote`;
- the comparators' order.

A few collaborators outside the four modelled classes are given concrete definitions instead, and the results that use them hold only if that code behaves as assumed. Each is listed under "## Left out":

- `StringUtil.isNonZeroUnsignedInteger`;
- `ArgumentMultimap.getValue`, `getAllValues` and `verifyNoDuplicatePrefixesFor`;
- `new Policy(number)`;
- `Index.fromOneBased`.

The default renewal date of `new Policy(number)` depends on the clock, so `ParsePolicy` and `EditCommandParser.Parse` take it as the parameter `oneYearFromNow`.

## Model

| member | source | states |
|---|---|---|
| Commons.Trim | src/main/java/seedu/address/logic/parser/ParserUtil.java:36 | the result is no longer than the input and neither starts nor ends with a character at or below U+0020; with Commons.TrimIsInfix, it is exactly what String.trim returns |
| Commons.TrimIsInfix | src/main/java/seedu/address/logic/parser/ParserUtil.java:36 | trim(s) is a contiguous part of s, and every character before it and after it is at or below U+0020 |
| Commons.TrimIdempotent | src/main/java/seedu/address/logic/parser/ParserUtil.java:51 | trimming an already trimmed string changes nothing |
| Commons.TrimStartIsSuffix | src/main/java/seedu/address/logic/parser/ParserUtil.java:36 | dropping leading blanks leaves a suffix of the string |
| Commons.TrimEndIsPrefix | src/main/java/seedu/address/logic/parser/ParserUtil.java:36 | dropping trailing blanks leaves a prefix of the string |
| Commons.DecimalRoundTrip | src/main/java/seedu/address/logic/parser/ParserUtil.java:40 | reading back the decimal numeral of n gives n, as Integer.parseInt does on Integer.toString |
| ParserUtil.ParseIndex | src/main/java/seedu/address/logic/parser/ParserUtil.java:35-41 | fails, with the invalid-index message, exactly when the trimmed input is not a non-zero unsigned integer; otherwise the index's one-based value is the numeral's value, at most Integer.MAX_VALUE |
| ParserUtil.ParseIndexRoundTrip | src/main/java/seedu/address/logic/parser/ParserUtil.java:35-41 | every index whose one-based value fits in an int is parsed back from its decimal form |
| ParserUtil.ParseIndexTrimsExample | src/main/java/seedu/address/logic/parser/ParserUtil.java:36 | " 12 " is the twelfth position (zero-based 11): blanks around the numeral are ignored |
| ParserUtil.ParseIndexRejectsExamples | src/main/java/seedu/address/logic/parser/ParserUtil.java:37-38 | "0" and "+1" are refused with the invalid-index message |
| ParserUtil.ParseName | src/main/java/seedu/address/logic/parser/ParserUtil.java:49-56 | succeeds exactly when the trimmed input is a valid name; the name holds the trimmed text; otherwise the name-constraints error |
| ParserUtil.ParsePhone | src/main/java/seedu/address/logic/parser/ParserUtil.java:76-83 | the same for phones, with the phone-constraints error |
| ParserUtil.ParseAddress | src/main/java/seedu/address/logic/parser/ParserUtil.java:103-110 | the same for addresses, with the address-constraints error |
| ParserUtil.ParseEmail | src/main/java/seedu/address/logic/parser/ParserUtil.java:130-137 | the same for emails, with the email-constraints error |
| ParserUtil.ParsePolicy | src/main/java/seedu/address/logic/parser/ParserUtil.java:157-164 | succeeds exactly when the trimmed input is a valid policy number; the policy has that number, the default renewal date and type LIFE; otherwise the policy-constraints error |
| ParserUtil.ParseTag | src/main/java/seedu/address/logic/parser/ParserUtil.java:184-191 | succeeds exactly when the trimmed input is a valid tag name, giving the tag of the trimmed text; otherwise the tag-constraints error |
| ParserUtil.ParseRenewalDate | src/main/java/seedu/address/logic/parser/ParserUtil.java:211-218 | succeeds exactly when the trimmed input is a valid renewal date, giving that date; otherwise the date-constraints error |
| ParserUtil.ParsePolicyType | src/main/java/seedu/address/logic/parser/ParserUtil.java:226-233 | succeeds exactly when the trimmed input is a valid policy type, giving PolicyType.fromString of it; otherwise the policy-type-constraints error |
| ParserUtil.ParseIndexIgnoresSurroundingWhitespace | src/main/java/seedu/address/logic/parser/ParserUtil.java:35-41 | parseIndex gives the same outcome on s and on trim(s) |
| ParserUtil.NameAndPhoneIgnoreSurroundingWhitespace | src/main/java/seedu/address/logic/parser/ParserUtil.java:49-83 | parseName and parsePhone give the same outcome on s and on trim(s) |
| ParserUtil.AddressAndEmailIgnoreSurroundingWhitespace | src/main/java/seedu/address/logic/parser/ParserUtil.java:103-137 | parseAddress and parseEmail give the same outcome on s and on trim(s) |
| ParserUtil.PolicyAndTagIgnoreSurroundingWhitespace | src/main/java/seedu/address/logic/parser/ParserUtil.java:157-191 | parsePolicy and parseTag give the same outcome on s and on trim(s) |
| ParserUtil.RenewalDateAndPolicyTypeIgnoreSurroundingWhitespace | src/main/java/seedu/address/logic/parser/ParserUtil.java:211-233 | parseRenewalDate and parsePolicyType give the same outcome on s and on trim(s) |
| ParserUtil.ParseAll | src/main/java/seedu/address/logic/parser/ParserUtil.java:61-68 | succeeds exactly when every element parses, and then returns the set of all parsed elements; otherwise returns the error of the first element that fails |
| ParserUtil.ParseNames | src/main/java/seedu/address/logic/parser/ParserUtil.java:61-68 | succeeds exactly when every string is a valid name once trimmed, with the set of those names; otherwise the name-constraints error |
| ParserUtil.ParsePhones | src/main/java/seedu/address/logic/parser/ParserUtil.java:88-95 | the same for phones |
| ParserUtil.ParseAddresses | src/main/java/seedu/address/logic/parser/ParserUtil.java:115-122 | the same for addresses |
| ParserUtil.ParseEmails | src/main/java/seedu/address/logic/parser/ParserUtil.java:142-149 | the same for emails |
| ParserUtil.ParsePolicies | src/main/java/seedu/address/logic/parser/ParserUtil.java:169-176 | the same for policy numbers, each giving a LIFE policy with the default renewal date |
| ParserUtil.ParseTags | src/main/java/seedu/address/logic/parser/ParserUtil.java:196-203 | the same for tags |
| ParserUtil.ParsePolicyTypes | src/main/java/seedu/address/logic/parser/ParserUtil.java:238-245 | the same for policy types |
| Arguments.GetValue | src/main/java/seedu/address/logic/parser/EditCommandParser.java:49-50 | a value exists exactly when the prefix was given, and it is one of the values given for it |
| Arguments.GetAllValues | src/main/java/seedu/address/logic/parser/EditCommandParser.java:76 | empty exactly when the prefix was not given |
| Arguments.DuplicatedPrefixes | src/main/java/seedu/address/logic/parser/EditCommandParser.java:43-44 | a prefix is reported exactly when it is one of the checked prefixes and was given more than once |
| FindPredicate.IsAnyPredicateSet | src/main/java/seedu/address/logic/commands/FindCommand.java:100-102 | true exactly when the predicate is not the empty one |
| FindPredicate.Test | src/main/java/seedu/address/logic/commands/FindCommand.java:129-135 | a person can only match a predicate with some sub-predicate set |
| FindPredicate.AsFilter | src/main/java/seedu/address/logic/commands/FindCommand.java:81 | the predicate, installed as a filter, accepts a person exactly when its test does |
| FindPredicate.NoCriteriaMatchesNobody | src/main/java/seedu/address/logic/commands/FindCommand.java:130-134 | with no sub-predicate set, nobody matches |
| FindPredicate.SettingMoreKeepsMatches | src/main/java/seedu/address/logic/commands/FindCommand.java:133-134 | setting more sub-predicates never drops a match (OR logic) |
| FindPredicate.TestIsDisjunctionOfSetSubpredicates | src/main/java/seedu/address/logic/commands/FindCommand.java:129-135 | a person matches exactly when some sub-predicate that is set accepts them |
| Model.Select | src/main/java/seedu/address/logic/commands/FindCommand.java:51-53 | the filtered list holds every accepted person of the store exactly as often as the store does and no other person, in store order (a subsequence) |
| Model.View | src/main/java/seedu/address/logic/commands/EditCommand.java:90 | the displayed list has exactly the persons of the store that the filter accepts, with their multiplicities, in whatever order |
| Model.ShowAllOriginalOrder | src/main/java/seedu/address/logic/commands/EditCommand.java:108-109 | show-all with no comparator displays the store itself |
| Model.ReplaceFirst | src/main/java/seedu/address/logic/commands/EditCommand.java:107 | same length, the first occurrence of the target replaced by the edited person, every other position unchanged |
| Model.ModelManager.FilteredPersonList | src/main/java/seedu/address/logic/commands/EditCommand.java:90 | the displayed list holds each person the current filter accepts exactly as often as the store does, and no other person, whatever the comparator |
| Model.ModelManager.SetPerson | src/main/java/seedu/address/logic/commands/EditCommand.java:107 | the store becomes the store with the target replaced; the filter and the order stay |
| Model.ModelManager.UpdateFilteredPersonList | src/main/java/seedu/address/logic/commands/FindCommand.java:51 | installs the filter and keeps the store and the comparator |
| Model.ModelManager.UpdateSortedPersonList | src/test/java/seedu/address/model/ModelManagerTest.java:286-302 | installs the comparator and keeps the store and the filter; a null comparator displays the filtered persons in original order |
| EditCommand.IsAnyFieldEdited | src/main/java/seedu/address/logic/commands/EditCommand.java:208-211 | true exactly when the descriptor is not the empty one |
| EditCommand.CreateEditedPerson | src/main/java/seedu/address/logic/commands/EditCommand.java:117-145 | every field the descriptor sets (name, phone, email, address, tags, note) is replaced by its value, every field it leaves unset is kept; the policy is described by the policy lemmas below |
| EditCommand.PolicyKeptUnlessEdited | src/main/java/seedu/address/logic/commands/EditCommand.java:137-139 | with no policy part edited, the policy is kept as it is |
| EditCommand.PolicyPartsOverlaid | src/main/java/seedu/address/logic/commands/EditCommand.java:125-136 | with some policy part edited, each of number, date and type comes from the descriptor if given and from the old policy otherwise |
| EditCommand.OnlyPolicyNumberIsTaken | src/main/java/seedu/address/logic/commands/EditCommand.java:128-130 | of the descriptor's policy only the number is used |
| EditCommand.NoEditsIsIdentity | src/main/java/seedu/address/logic/commands/EditCommand.java:117-145 | an empty descriptor leaves the person unchanged |
| EditCommand.OverlayIdempotent | src/main/java/seedu/address/logic/commands/EditCommand.java:117-145 | editing twice with the same descriptor is editing once |
| EditCommand.OverlayComposes | src/main/java/seedu/address/logic/commands/EditCommand.java:117-145 | two edits in a row are one edit in which the later values win, policy parts included |
| EditCommand.FirstClash | src/main/java/seedu/address/logic/commands/EditCommand.java:98-101 | none exactly when no displayed person clashes; otherwise the first displayed person that is not the person being edited yet is the same person as the edited one |
| EditCommand.Execute | src/main/java/seedu/address/logic/commands/EditCommand.java:88-111 | the outcome is one of three: an index past the displayed list is refused; a clash gives the duplicate error with its reason; otherwise the store has the person replaced, everything is shown in original order and the success message names the edited person. A refusal changes nothing |
| EditCommandParser.ParseTagsForEdit | src/main/java/seedu/address/logic/parser/EditCommandParser.java:93-101 | no t/ gives nothing to edit; a lone empty t/ clears the tags; otherwise succeeds exactly when every value is a valid tag, with the set of those tags, or the tag-constraints error |
| EditCommandParser.ParseIfPresent | src/main/java/seedu/address/logic/parser/EditCommandParser.java:49-75 | an absent value gives nothing to set; a given value is parsed, or its parse error is raised |
| EditCommandParser.ParseFields | src/main/java/seedu/address/logic/parser/EditCommandParser.java:48-79 | fails with the error of the first field, in the order n/ p/ e/ a/ pol/ r/ pt/ note/ t/, whose value does not parse; otherwise every descriptor field holds the parsed value of its prefix, or is unset when the prefix is absent |
| EditCommandParser.DescribedEditIsNonEmptyIffGiven | src/main/java/seedu/address/logic/parser/EditCommandParser.java:81-83 | a descriptor built from the arguments sets some field exactly when some editable prefix was given |
| EditCommandParser.Parse | src/main/java/seedu/address/logic/parser/EditCommandParser.java:35-86 | checks in order: a bad index gives the invalid-index error; repeated single-valued prefixes give the duplicate-prefix error naming them; then the first field error; with no prefix given, the not-edited error; otherwise a command with the parsed index and the described edit, which always edits something |
| FindCommand.Execute | src/main/java/seedu/address/logic/commands/FindCommand.java:49-54 | never fails; installs the predicate as the filter, keeps the store and the order; the displayed list then holds exactly the matching persons, and the reported count is its size |

## Left out

- Validators, `isSamePerson`, `getDuplicateReason`, `Messages.format`, the sub-predicates' `test`, `PolicyType.fromString`, `parseNote` and the comparators are outside the four modelled classes. They are uninterpreted functions, so their own rules (what a valid phone is, for example) are not modelled.
- Commons.IsNonZeroUnsignedInteger: `StringUtil.isNonZeroUnsignedInteger` is not part of this model. It is assumed to accept exactly the strings that `Integer.parseInt` reads as a positive int and that do not start with '+'. Only ASCII digits are modelled, although `Integer.parseInt` also accepts other Unicode decimal digits. The value clause of ParserUtil.ParseIndex and ParserUtil.ParseIndexRoundTrip rest on this assumption.
- Commons.FromOneBased: `Index.fromOneBased` is not part of this model. It is assumed to store the one-based value minus one.
- Arguments.GetValue: `ArgumentMultimap.getValue` is not part of this model. It is assumed to return the last value given for the prefix.
- Arguments.GetAllValues: `ArgumentMultimap.getAllValues` is assumed to return every value given for the prefix, in order, and an empty list when there is none.
- Arguments.DuplicatedPrefixes: `verifyNoDuplicatePrefixesFor` is assumed to refuse exactly when some checked prefix has more than one value, naming those prefixes. Its message text is not modelled. The duplicate clause of EditCommandParser.Parse rests on this.
- EditCommand.FirstClash, Model.ReplaceFirst, ParserUtil.ParseAll: the `equals` methods of `Person` and of the field classes (`Name`, `Phone`, `Email`, `Address`, `Policy`, `RenewalDate`, `PolicyType`, `Note`, `Tag`) are not part of this model. They are assumed to be structural equality of the stored values; a `RenewalDate`, for example, equals only one built from the same text. Three results rest on this:
  - the `!p.equals(personToEdit)` test of the clash search (EditCommand.java:99);
  - the `indexOf` inside `setPerson`;
  - how the collection parsers' `HashSet` merges equal values (ParserUtil.java:63-66).
- Copy constructors, setters, getters, `equals` and `toString` of `EditPersonDescriptor`, `EditCommand`, `FindPersonsPredicate` and `FindCommand` are not modelled. These types are immutable values here, so copying is identity and equality is structural; the defensive copies and unmodifiable views therefore have nothing to guard.
- ParserUtil.ParsePolicy: `new Policy(number)` is not part of this model. It is assumed to give the policy type LIFE and a renewal date one year ahead; that date is a parameter, because it reads the clock. The LIFE clauses of ParserUtil.ParsePolicy and ParserUtil.ParsePolicies rest on this.
- `ParserUtil.parseDate` is not modelled. It is not used by the edit or find commands, and it delegates to `LocalDate.parse`.
- ParserUtil.ParseAll: the source accepts any collection. The model takes a sequence, so its iteration order is the sequence's order.
- The argument tokenizer (`ArgumentTokenizer`) is not part of this model. The parser starts from an already tokenized preamble and prefix-to-values map.
- Model.ModelManager: only the store, the filter and the comparator are modelled. The model leaves out:
  - the renewals list, user preferences and last-updated time;
  - JSON storage;
  - the address book's own duplicate-person guard in `setPerson`.
- Model.View: a comparator is an opaque token with an uninterpreted "precedes" order. The displayed order is a stable insertion sort by it. Only membership and multiplicity are proved about the sorted view, not the order itself.
- FindCommand.Execute: the command keeps the caller's mutable `FindPersonsPredicate` without copying it (FindCommand.java:44-46) and installs that same object as the filter (FindCommand.java:51). In the source, a later setter call on that object therefore changes the displayed list. Here the predicate is an immutable value, so that aliasing is not captured.
- FindCommand.Execute: the success message wording (`MESSAGE_PERSONS_LISTED_OVERVIEW`) is an uninterpreted function of the count.
- FindCommand.Execute: `FindCommand` declares `MESSAGE_NOT_FOUND` (FindCommand.java:40), but `execute` (FindCommand.java:49-54) never refuses a find with no criteria. The model follows the code: such a find displays nobody.
- EditCommand.Execute: `MESSAGE_DUPLICATE_PERSON` speaks of a person that "already exists in the address book" (EditCommand.java:68-69), but `execute` searches only the displayed list for a clash (EditCommand.java:98-101). The model follows the code.
- FindPredicate.Test: the test builder calls email, address, tag and policy-type setters (FindPersonsPredicateBuilder.java:45-46, 86, 109, 119). `FindPersonsPredicate` has only the name, phone and policy fields (FindCommand.java:82-84), and so does the model.
