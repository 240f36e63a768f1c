/**
 * The entity model the commands work on: the immutable field values of a person and the
 * Person aggregate. The classes that define these values (their validation regular
 * expressions, Person.isSamePerson, Messages.format) are not part of this model: each such
 * rule is an uninterpreted constant below, so every property proved here holds whatever
 * the rule is.
 */
module Person {

  datatype Name = Name(fullName: string)
  datatype Phone = Phone(value: string)
  datatype Email = Email(value: string)
  datatype Address = Address(value: string)
  datatype Note = Note(value: string)
  datatype Tag = Tag(tagName: string)

  /** A renewal date, identified by the validated text it was built from. */
  datatype RenewalDate = RenewalDate(text: string)

  /** A constant of the PolicyType enumeration, by its name. */
  datatype PolicyType = PolicyType(typeName: string)

  /** The type a policy gets when none is given. */
  const Life := PolicyType("LIFE")

  datatype Policy = Policy(policyNumber: string, renewalDate: RenewalDate, policyType: PolicyType)

  datatype Person = Person(
    name: Name,
    phone: Phone,
    email: Email,
    address: Address,
    policy: Policy,
    note: Note,
    tags: set<Tag>)

  /** Name.isValidName */
  const IsValidName: string -> bool
  /** Phone.isValidPhone */
  const IsValidPhone: string -> bool
  /** Email.isValidEmail */
  const IsValidEmail: string -> bool
  /** Address.isValidAddress */
  const IsValidAddress: string -> bool
  /** Policy.isValidPolicy (a policy number) */
  const IsValidPolicy: string -> bool
  /** Tag.isValidTagName */
  const IsValidTagName: string -> bool
  /** RenewalDate.isValidRenewalDate */
  const IsValidRenewalDate: string -> bool
  /** PolicyType.isValidPolicyType */
  const IsValidPolicyType: string -> bool
  /** PolicyType.fromString, meaningful only for strings that isValidPolicyType accepts */
  const PolicyTypeFromString: string -> PolicyType

  /** Person.isSamePerson: the identity rule used for duplicate detection */
  const IsSamePerson: (Person, Person) -> bool
  /** Person.getDuplicateReason: which field two same persons share */
  const DuplicateReason: (Person, Person) -> string
  /** Messages.format: the summary of a person shown in command results */
  const Format: Person -> string
}
