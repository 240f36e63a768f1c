/**
 * EditCommandParser: reads the index from the preamble, refuses repeated single-valued
 * prefixes, parses the value of each prefix that is present into its descriptor field, and
 * refuses an edit that sets nothing.
 */
module EditCommandParser {

  import opened Wrappers
  import opened Commons
  import opened Person
  import opened Arguments
  import opened ParserUtil
  import opened EditCommand

  /** Every prefix of an edit except t/, which may be repeated. */
  const SingleValuedPrefixes: set<Prefix> := {PrefixName, PrefixPhone, PrefixEmail, PrefixAddress,
    PrefixPolicy, PrefixRenewalDate, PrefixPolicyType, PrefixNote}

  /** One `t/` with an empty value stands for "no tags"; otherwise every value is a tag. */
  function TagValuesForEdit(tags: seq<string>): seq<string> {
    if |tags| == 1 && tags[0] == "" then [] else tags
  }

  /** The tags an edit sets from the t/ values: one tag per value, trimmed. */
  function TagsOf(tags: seq<string>): set<Tag> {
    set s | s in TagValuesForEdit(tags) :: Tag(Trim(s))
  }

  /** parseTagsForEdit: no t/ gives nothing to edit, a lone empty t/ clears the tags. */
  method ParseTagsForEdit(tags: seq<string>) returns (r: Result<Option<set<Tag>>, ParseError>)
    ensures tags == [] ==> r == Ok(None)
    ensures tags == [""] ==> r == Ok(Some({}))
    ensures tags != [] ==> (r.Ok? <==> forall s :: s in TagValuesForEdit(tags) ==> IsValidTagName(Trim(s)))
    ensures tags != [] && r.Ok? ==> r.value == Some(TagsOf(tags))
    ensures r.Err? ==> r.error == TagConstraints
  {
    if tags == [] {
      return Ok(None);
    }
    var tagSet := TagValuesForEdit(tags);
    var parsed := ParseTags(tagSet);
    if parsed.Err? {
      return Err(parsed.error);
    }
    assert tagSet == [] ==> (set s | s in tagSet :: Tag(Trim(s))) == {};
    r := Ok(Some(parsed.value));
  }

  /** parsePolicy, with the clock-dependent default renewal date fixed. */
  function PolicyParser(oneYearFromNow: RenewalDate): string -> Result<Policy, ParseError> {
    s => ParsePolicy(s, oneYearFromNow)
  }

  /** The error a parser reports for the value v, if v is given and does not parse. */
  function ValueError<T>(v: Option<string>, parse: string -> Result<T, ParseError>): (e: Option<ParseError>)
    ensures e.Some? <==> v.Some? && parse(v.value).Err?
  {
    if v.Some? && parse(v.value).Err? then Some(parse(v.value).error) else None
  }

  /** The value a parser returns for v, if v is given and parses. */
  function ValueParsed<T>(v: Option<string>, parse: string -> Result<T, ParseError>): (r: Option<T>)
    ensures r.Some? <==> v.Some? && parse(v.value).Ok?
  {
    if v.Some? && parse(v.value).Ok? then Some(parse(v.value).value) else None
  }

  /** The error the t/ values raise, if t/ is present and some value is not a valid tag. */
  function TagsError(args: ArgumentMultimap): Option<ParseError> {
    var values := TagValuesForEdit(GetAllValues(args, PrefixTag));
    if IsPresent(args, PrefixTag) && exists s :: s in values && !IsValidTagName(Trim(s))
    then Some(TagConstraints) else None
  }

  /**
   * The error parse reports for the fields: that of the first field, in the order the parser
   * reads them (n/ p/ e/ a/ pol/ r/ pt/ note/ t/), whose value does not parse.
   */
  function FirstFieldError(args: ArgumentMultimap, oneYearFromNow: RenewalDate): Option<ParseError> {
    ValueError(GetValue(args, PrefixName), ParseName)
    .OrElse(ValueError(GetValue(args, PrefixPhone), ParsePhone))
    .OrElse(ValueError(GetValue(args, PrefixEmail), ParseEmail))
    .OrElse(ValueError(GetValue(args, PrefixAddress), ParseAddress))
    .OrElse(ValueError(GetValue(args, PrefixPolicy), PolicyParser(oneYearFromNow)))
    .OrElse(ValueError(GetValue(args, PrefixRenewalDate), ParseRenewalDate))
    .OrElse(ValueError(GetValue(args, PrefixPolicyType), ParsePolicyType))
    .OrElse(ValueError(GetValue(args, PrefixNote), ParseNote))
    .OrElse(TagsError(args))
  }

  /** Some editable prefix was given a value. */
  predicate AnyFieldGiven(args: ArgumentMultimap) {
    IsPresent(args, PrefixName) || IsPresent(args, PrefixPhone) || IsPresent(args, PrefixEmail)
    || IsPresent(args, PrefixAddress) || IsPresent(args, PrefixPolicy) || IsPresent(args, PrefixRenewalDate)
    || IsPresent(args, PrefixPolicyType) || IsPresent(args, PrefixNote) || IsPresent(args, PrefixTag)
  }

  /** Each field of d holds the parsed value of its own prefix, and is unset when the prefix is absent. */
  predicate Describes(d: EditPersonDescriptor, args: ArgumentMultimap, oneYearFromNow: RenewalDate) {
    && d.name == ValueParsed(GetValue(args, PrefixName), ParseName)
    && d.phone == ValueParsed(GetValue(args, PrefixPhone), ParsePhone)
    && d.email == ValueParsed(GetValue(args, PrefixEmail), ParseEmail)
    && d.address == ValueParsed(GetValue(args, PrefixAddress), ParseAddress)
    && d.policy == ValueParsed(GetValue(args, PrefixPolicy), PolicyParser(oneYearFromNow))
    && d.renewalDate == ValueParsed(GetValue(args, PrefixRenewalDate), ParseRenewalDate)
    && d.policyType == ValueParsed(GetValue(args, PrefixPolicyType), ParsePolicyType)
    && d.note == ValueParsed(GetValue(args, PrefixNote), ParseNote)
    && d.tags == (if IsPresent(args, PrefixTag)
                  then Some(TagsOf(GetAllValues(args, PrefixTag)))
                  else None)
  }

  /** One guarded setter call of parse: the value, when given, is parsed or the parse error raised. */
  method ParseIfPresent<T>(v: Option<string>, parse: string -> Result<T, ParseError>) returns (r: Result<Option<T>, ParseError>)
    ensures r.Err? <==> ValueError(v, parse).Some?
    ensures r.Err? ==> r.error == ValueError(v, parse).value
    ensures r.Ok? ==> r.value == ValueParsed(v, parse)
  {
    if v.Some? {
      var parsed := parse(v.value);
      if parsed.Err? {
        return Err(parsed.error);
      }
      return Ok(Some(parsed.value));
    }
    r := Ok(None);
  }

  /**
   * The try block of parse: each field in turn, stopping at the first value that does not
   * parse, sets its own descriptor field when its prefix is present.
   */
  method ParseFields(args: ArgumentMultimap, oneYearFromNow: RenewalDate) returns (r: Result<EditPersonDescriptor, ParseError>)
    ensures r.Err? ==> FirstFieldError(args, oneYearFromNow) == Some(r.error)
    ensures r.Ok? ==> FirstFieldError(args, oneYearFromNow) == None && Describes(r.value, args, oneYearFromNow)
  {
    var name := ParseIfPresent(GetValue(args, PrefixName), ParseName);
    if name.Err? {
      return Err(name.error);
    }

    var phone := ParseIfPresent(GetValue(args, PrefixPhone), ParsePhone);
    if phone.Err? {
      return Err(phone.error);
    }

    var email := ParseIfPresent(GetValue(args, PrefixEmail), ParseEmail);
    if email.Err? {
      return Err(email.error);
    }

    var address := ParseIfPresent(GetValue(args, PrefixAddress), ParseAddress);
    if address.Err? {
      return Err(address.error);
    }

    var policy := ParseIfPresent(GetValue(args, PrefixPolicy), PolicyParser(oneYearFromNow));
    if policy.Err? {
      return Err(policy.error);
    }

    var renewalDate := ParseIfPresent(GetValue(args, PrefixRenewalDate), ParseRenewalDate);
    if renewalDate.Err? {
      return Err(renewalDate.error);
    }

    var policyType := ParseIfPresent(GetValue(args, PrefixPolicyType), ParsePolicyType);
    if policyType.Err? {
      return Err(policyType.error);
    }

    var note := ParseIfPresent(GetValue(args, PrefixNote), ParseNote);
    if note.Err? {
      return Err(note.error);
    }

    var tags := ParseTagsForEdit(GetAllValues(args, PrefixTag));
    if tags.Err? {
      return Err(tags.error);
    }
    r := Ok(EditPersonDescriptor(name.value, phone.value, email.value, address.value, policy.value,
                                 renewalDate.value, policyType.value, tags.value, note.value));
  }

  /** A descriptor built from arguments sets some field exactly when some editable prefix was given. */
  lemma DescribedEditIsNonEmptyIffGiven(d: EditPersonDescriptor, args: ArgumentMultimap, oneYearFromNow: RenewalDate)
    requires Describes(d, args, oneYearFromNow)
    requires FirstFieldError(args, oneYearFromNow).None?
    ensures IsAnyFieldEdited(d) <==> AnyFieldGiven(args)
  {
    assert d.name.Some? <==> IsPresent(args, PrefixName);
  }

  /**
   * parse. The index is checked first, then repeated prefixes, then each field in turn; an
   * edit that sets no field is refused last. `oneYearFromNow` is the default renewal date of
   * a policy built from a bare number, which depends on the clock.
   */
  method Parse(args: ArgumentMultimap, oneYearFromNow: RenewalDate) returns (r: Result<EditCommand, ParseError>)
    ensures ParseIndex(args.preamble).Err? ==> r == Err(InvalidIndex)
    ensures ParseIndex(args.preamble).Ok? && DuplicatedPrefixes(args, SingleValuedPrefixes) != {} ==>
      r == Err(DuplicatePrefixes(DuplicatedPrefixes(args, SingleValuedPrefixes)))
    ensures ParseIndex(args.preamble).Ok? && DuplicatedPrefixes(args, SingleValuedPrefixes) == {} ==>
      match FirstFieldError(args, oneYearFromNow)
      case Some(e) => r == Err(e)
      case None =>
        if AnyFieldGiven(args) then
          r.Ok? && r.value.index == ParseIndex(args.preamble).value
          && Describes(r.value.descriptor, args, oneYearFromNow)
        else r == Err(NotEdited)
    ensures r.Ok? ==> IsAnyFieldEdited(r.value.descriptor)
  {
    var index := ParseIndex(args.preamble);
    if index.Err? {
      return Err(index.error);
    }
    var duplicated := DuplicatedPrefixes(args, SingleValuedPrefixes);
    if duplicated != {} {
      return Err(DuplicatePrefixes(duplicated));
    }
    var descriptor := ParseFields(args, oneYearFromNow);
    if descriptor.Err? {
      return Err(descriptor.error);
    }
    DescribedEditIsNonEmptyIffGiven(descriptor.value, args, oneYearFromNow);
    if !IsAnyFieldEdited(descriptor.value) {
      return Err(NotEdited);
    }
    r := Ok(EditCommand(index.value, descriptor.value));
  }
}
