/**
 * What the argument tokenizer hands to a command parser: the preamble (the text before the
 * first prefix) and, for each prefix, the values given for it in order. The tokenizer itself
 * is not part of this model; prefixes are opaque tokens.
 */
module Arguments {

  import opened Wrappers

  datatype Prefix = Prefix(text: string)

  const PrefixName := Prefix("n/")
  const PrefixPhone := Prefix("p/")
  const PrefixEmail := Prefix("e/")
  const PrefixAddress := Prefix("a/")
  const PrefixPolicy := Prefix("pol/")
  const PrefixNote := Prefix("note/")
  const PrefixTag := Prefix("t/")
  const PrefixRenewalDate := Prefix("r/")
  const PrefixPolicyType := Prefix("pt/")

  datatype ArgumentMultimap = ArgumentMultimap(preamble: string, values: map<Prefix, seq<string>>)

  /** Some value was given for the prefix. */
  predicate IsPresent(args: ArgumentMultimap, p: Prefix) {
    p in args.values && |args.values[p]| > 0
  }

  /** ArgumentMultimap.getValue: the last value given for the prefix, if any. */
  function GetValue(args: ArgumentMultimap, p: Prefix): (r: Option<string>)
    ensures r.Some? <==> IsPresent(args, p)
    ensures r.Some? ==> r.value in args.values[p]
  {
    if IsPresent(args, p) then Some(args.values[p][|args.values[p]| - 1]) else None
  }

  /** ArgumentMultimap.getAllValues: every value given for the prefix, in order. */
  function GetAllValues(args: ArgumentMultimap, p: Prefix): (r: seq<string>)
    ensures r == [] <==> !IsPresent(args, p)
  {
    if p in args.values then args.values[p] else []
  }

  /** The prefixes among ps that were given more than once. */
  function DuplicatedPrefixes(args: ArgumentMultimap, ps: set<Prefix>): (r: set<Prefix>)
    ensures forall p :: p in r <==> p in ps && |GetAllValues(args, p)| > 1
  {
    set p | p in ps && p in args.values && |args.values[p]| > 1
  }
}
