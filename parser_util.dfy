/**
 * ParserUtil: turns the raw strings of a command into field values. Every single-field parser
 * trims its input, checks it with the field's validator and builds the value, or fails with
 * the field's fixed constraint message; the collection parsers parse every element into a set.
 */
module ParserUtil {

  import opened Wrappers
  import opened Commons
  import opened Person
  import opened Arguments

  /** The message of a ParseException. The constraint messages are constants of the field classes. */
  datatype ParseError =
    | InvalidIndex              // ParserUtil.MESSAGE_INVALID_INDEX
    | NameConstraints           // Name.MESSAGE_CONSTRAINTS
    | PhoneConstraints          // Phone.MESSAGE_CONSTRAINTS
    | AddressConstraints        // Address.MESSAGE_CONSTRAINTS
    | EmailConstraints          // Email.MESSAGE_CONSTRAINTS
    | PolicyConstraints         // Policy.MESSAGE_CONSTRAINTS
    | TagConstraints            // Tag.MESSAGE_CONSTRAINTS
    | DateConstraints           // RenewalDate.DATE_CONSTRAINTS
    | PolicyTypeConstraints     // PolicyType.MESSAGE_CONSTRAINTS
    | NoteConstraints           // what ParserUtil.parseNote reports
    | DuplicatePrefixes(prefixes: set<Prefix>)
    | NotEdited                 // EditCommand.MESSAGE_NOT_EDITED

  /** ParserUtil.parseNote is not part of this model: any outcome is allowed. */
  const ParseNote: string -> Result<Note, ParseError>

  /** The one-based index in the trimmed string, or MESSAGE_INVALID_INDEX. */
  function ParseIndex(oneBasedIndex: string): (r: Result<Index, ParseError>)
    ensures r.Err? <==> !IsNonZeroUnsignedInteger(Trim(oneBasedIndex))
    ensures r.Err? ==> r.error == InvalidIndex
    ensures r.Ok? ==> r.value.OneBased() == DecimalValue(Trim(oneBasedIndex)) <= MaxInt
  {
    var trimmed := Trim(oneBasedIndex);
    if !IsNonZeroUnsignedInteger(trimmed) then Err(InvalidIndex)
    else Ok(FromOneBased(DecimalValue(trimmed)))
  }

  /** Every index that Integer.parseInt can hold is read back from its decimal form. */
  lemma ParseIndexRoundTrip(i: Index)
    requires i.OneBased() <= MaxInt
    ensures ParseIndex(Decimal(i.OneBased())) == Ok(i)
  {
    var s := Decimal(i.OneBased());
    DecimalRoundTrip(i.OneBased());
    DigitsAreTrimmed(s);
    assert IsNonZeroUnsignedInteger(s);
  }

  /** Surrounding blanks are dropped before the numeral is read. */
  lemma ParseIndexTrimsExample()
    ensures ParseIndex(" 12 ") == Ok(Index(11))
  {
    assert TrimStart(" 12 ") == "12 ";
    assert TrimEnd("12 ") == "12";
    assert "12"[..1] == "1";
    assert DecimalValue("12") == 12;
  }

  /** Zero and a leading sign make the index invalid. */
  lemma ParseIndexRejectsExamples()
    ensures ParseIndex("0") == Err(InvalidIndex)
    ensures ParseIndex("+1") == Err(InvalidIndex)
  {
    DigitsAreTrimmed("0");
    assert DecimalValue("0") == 0;
    assert TrimStart("+1") == "+1";
    assert TrimEnd("+1") == "+1";
    assert !IsDigit("+1"[0]);
  }

  function ParseName(name: string): (r: Result<Name, ParseError>)
    ensures r.Ok? <==> IsValidName(Trim(name))
    ensures r.Ok? ==> r.value.fullName == Trim(name)
    ensures r.Err? ==> r.error == NameConstraints
  {
    var trimmed := Trim(name);
    if !IsValidName(trimmed) then Err(NameConstraints) else Ok(Name(trimmed))
  }

  function ParsePhone(phone: string): (r: Result<Phone, ParseError>)
    ensures r.Ok? <==> IsValidPhone(Trim(phone))
    ensures r.Ok? ==> r.value.value == Trim(phone)
    ensures r.Err? ==> r.error == PhoneConstraints
  {
    var trimmed := Trim(phone);
    if !IsValidPhone(trimmed) then Err(PhoneConstraints) else Ok(Phone(trimmed))
  }

  function ParseAddress(address: string): (r: Result<Address, ParseError>)
    ensures r.Ok? <==> IsValidAddress(Trim(address))
    ensures r.Ok? ==> r.value.value == Trim(address)
    ensures r.Err? ==> r.error == AddressConstraints
  {
    var trimmed := Trim(address);
    if !IsValidAddress(trimmed) then Err(AddressConstraints) else Ok(Address(trimmed))
  }

  function ParseEmail(email: string): (r: Result<Email, ParseError>)
    ensures r.Ok? <==> IsValidEmail(Trim(email))
    ensures r.Ok? ==> r.value.value == Trim(email)
    ensures r.Err? ==> r.error == EmailConstraints
  {
    var trimmed := Trim(email);
    if !IsValidEmail(trimmed) then Err(EmailConstraints) else Ok(Email(trimmed))
  }

  /**
   * `new Policy(number)`: the policy gets the trimmed number, the type LIFE and a renewal date
   * one year from today, which the caller supplies because it depends on the clock.
   */
  function ParsePolicy(policy: string, oneYearFromNow: RenewalDate): (r: Result<Policy, ParseError>)
    ensures r.Ok? <==> IsValidPolicy(Trim(policy))
    ensures r.Ok? ==> r.value == Policy(Trim(policy), oneYearFromNow, Life)
    ensures r.Err? ==> r.error == PolicyConstraints
  {
    var trimmed := Trim(policy);
    if !IsValidPolicy(trimmed) then Err(PolicyConstraints) else Ok(Policy(trimmed, oneYearFromNow, Life))
  }

  function ParseTag(tag: string): (r: Result<Tag, ParseError>)
    ensures r.Ok? <==> IsValidTagName(Trim(tag))
    ensures r.Ok? ==> r.value.tagName == Trim(tag)
    ensures r.Err? ==> r.error == TagConstraints
  {
    var trimmed := Trim(tag);
    if !IsValidTagName(trimmed) then Err(TagConstraints) else Ok(Tag(trimmed))
  }

  function ParseRenewalDate(renewalDate: string): (r: Result<RenewalDate, ParseError>)
    ensures r.Ok? <==> IsValidRenewalDate(Trim(renewalDate))
    ensures r.Ok? ==> r.value.text == Trim(renewalDate)
    ensures r.Err? ==> r.error == DateConstraints
  {
    var trimmed := Trim(renewalDate);
    if !IsValidRenewalDate(trimmed) then Err(DateConstraints) else Ok(RenewalDate(trimmed))
  }

  /** PolicyType.fromString is reached only with a string that isValidPolicyType accepted. */
  function ParsePolicyType(policyType: string): (r: Result<PolicyType, ParseError>)
    ensures r.Ok? <==> IsValidPolicyType(Trim(policyType))
    ensures r.Ok? ==> r.value == PolicyTypeFromString(Trim(policyType))
    ensures r.Err? ==> r.error == PolicyTypeConstraints
  {
    var trimmed := Trim(policyType);
    if !IsValidPolicyType(trimmed) then Err(PolicyTypeConstraints) else Ok(PolicyTypeFromString(trimmed))
  }

  /** Surrounding whitespace never changes the index read. */
  lemma ParseIndexIgnoresSurroundingWhitespace(s: string)
    ensures ParseIndex(Trim(s)) == ParseIndex(s)
  {
    TrimIdempotent(s);
  }

  // Surrounding whitespace never changes what a single-field parser returns (two parsers per lemma).

  lemma NameAndPhoneIgnoreSurroundingWhitespace(s: string)
    ensures ParseName(Trim(s)) == ParseName(s)
    ensures ParsePhone(Trim(s)) == ParsePhone(s)
  {
    TrimIdempotent(s);
  }

  lemma AddressAndEmailIgnoreSurroundingWhitespace(s: string)
    ensures ParseAddress(Trim(s)) == ParseAddress(s)
    ensures ParseEmail(Trim(s)) == ParseEmail(s)
  {
    TrimIdempotent(s);
  }

  lemma PolicyAndTagIgnoreSurroundingWhitespace(s: string, oneYearFromNow: RenewalDate)
    ensures ParsePolicy(Trim(s), oneYearFromNow) == ParsePolicy(s, oneYearFromNow)
    ensures ParseTag(Trim(s)) == ParseTag(s)
  {
    TrimIdempotent(s);
  }

  lemma RenewalDateAndPolicyTypeIgnoreSurroundingWhitespace(s: string)
    ensures ParseRenewalDate(Trim(s)) == ParseRenewalDate(s)
    ensures ParsePolicyType(Trim(s)) == ParsePolicyType(s)
  {
    TrimIdempotent(s);
  }

  /**
   * The loop shared by the collection parsers: parse each input in turn, add the value to
   * the set, and stop with the first failure.
   */
  method ParseAll<T(==)>(inputs: seq<string>, parse: string -> Result<T, ParseError>)
    returns (r: Result<set<T>, ParseError>)
    ensures r.Ok? <==> forall s :: s in inputs ==> parse(s).Ok?
    ensures r.Ok? ==> r.value == set s | s in inputs && parse(s).Ok? :: parse(s).value
    ensures r.Err? ==> exists i :: 0 <= i < |inputs| && parse(inputs[i]) == Err(r.error)
                         && forall j :: 0 <= j < i ==> parse(inputs[j]).Ok?
  {
    var values: set<T> := {};
    var i := 0;
    while i < |inputs|
      invariant 0 <= i <= |inputs|
      invariant forall j :: 0 <= j < i ==> parse(inputs[j]).Ok?
      invariant values == set s | s in inputs[..i] && parse(s).Ok? :: parse(s).value
    {
      var parsed := parse(inputs[i]);
      if parsed.Err? {
        return Err(parsed.error);
      }
      assert inputs[..i + 1] == inputs[..i] + [inputs[i]];
      values := values + {parsed.value};
      i := i + 1;
    }
    assert inputs[..i] == inputs;
    r := Ok(values);
  }

  method ParseNames(names: seq<string>) returns (r: Result<set<Name>, ParseError>)
    ensures r.Ok? <==> forall s :: s in names ==> IsValidName(Trim(s))
    ensures r.Ok? ==> r.value == set s | s in names :: Name(Trim(s))
    ensures r.Err? ==> r.error == NameConstraints
  {
    r := ParseAll(names, ParseName);
  }

  method ParsePhones(phones: seq<string>) returns (r: Result<set<Phone>, ParseError>)
    ensures r.Ok? <==> forall s :: s in phones ==> IsValidPhone(Trim(s))
    ensures r.Ok? ==> r.value == set s | s in phones :: Phone(Trim(s))
    ensures r.Err? ==> r.error == PhoneConstraints
  {
    r := ParseAll(phones, ParsePhone);
  }

  method ParseAddresses(addresses: seq<string>) returns (r: Result<set<Address>, ParseError>)
    ensures r.Ok? <==> forall s :: s in addresses ==> IsValidAddress(Trim(s))
    ensures r.Ok? ==> r.value == set s | s in addresses :: Address(Trim(s))
    ensures r.Err? ==> r.error == AddressConstraints
  {
    r := ParseAll(addresses, ParseAddress);
  }

  method ParseEmails(emails: seq<string>) returns (r: Result<set<Email>, ParseError>)
    ensures r.Ok? <==> forall s :: s in emails ==> IsValidEmail(Trim(s))
    ensures r.Ok? ==> r.value == set s | s in emails :: Email(Trim(s))
    ensures r.Err? ==> r.error == EmailConstraints
  {
    r := ParseAll(emails, ParseEmail);
  }

  method ParsePolicies(policies: seq<string>, oneYearFromNow: RenewalDate) returns (r: Result<set<Policy>, ParseError>)
    ensures r.Ok? <==> forall s :: s in policies ==> IsValidPolicy(Trim(s))
    ensures r.Ok? ==> r.value == set s | s in policies :: Policy(Trim(s), oneYearFromNow, Life)
    ensures r.Err? ==> r.error == PolicyConstraints
  {
    r := ParseAll(policies, s => ParsePolicy(s, oneYearFromNow));
  }

  method ParseTags(tags: seq<string>) returns (r: Result<set<Tag>, ParseError>)
    ensures r.Ok? <==> forall s :: s in tags ==> IsValidTagName(Trim(s))
    ensures r.Ok? ==> r.value == set s | s in tags :: Tag(Trim(s))
    ensures r.Err? ==> r.error == TagConstraints
  {
    r := ParseAll(tags, ParseTag);
  }

  method ParsePolicyTypes(policyTypes: seq<string>) returns (r: Result<set<PolicyType>, ParseError>)
    ensures r.Ok? <==> forall s :: s in policyTypes ==> IsValidPolicyType(Trim(s))
    ensures r.Ok? ==> r.value == set s | s in policyTypes :: PolicyTypeFromString(Trim(s))
    ensures r.Err? ==> r.error == PolicyTypeConstraints
  {
    r := ParseAll(policyTypes, ParsePolicyType);
  }
}
