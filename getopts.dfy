/**
  What the `getopts` crate hands back to the settings parser after a successful
  tokenisation, for the eight options the parser declares. The tokenisation
  itself (splitting `--name value` / `--name=value`, rejecting unknown or
  duplicated options, missing arguments) is outside this model; the parser
  only ever asks whether an option is present and what its value is.
*/
module Getopts {
  import opened Wrappers

  /** The long options declared by the parser, flags first. */
  datatype Opt = Setup | Help | ClientId | ClientSecret | From | To | Subject | Body

  /** `Setup` and `Help` are declared with `optflag` (no value); the others with `optopt`. */
  predicate TakesValue(o: Opt) {
    !(o == Setup || o == Help)
  }

  /** The long name under which each option is declared and looked up. */
  function LongName(o: Opt): string {
    match o
    case Setup => "setup"
    case Help => "help"
    case ClientId => "client_id"
    case ClientSecret => "client_secret"
    case From => "from"
    case To => "to"
    case Subject => "subject"
    case Body => "body"
  }

  /**
    A successful tokenisation. A flag is either there or not; an option
    declared with `optopt` occurs at most once (a repeat is a getopts error)
    and always carries a value when it occurs, so each is an `Option<string>`.
  */
  datatype Matches = Matches(
    setup: bool,
    help: bool,
    clientId: Option<string>,
    clientSecret: Option<string>,
    from: Option<string>,
    to: Option<string>,
    subject: Option<string>,
    body: Option<string>)

  /** `Matches::opt_present`. */
  predicate OptPresent(m: Matches, o: Opt) {
    match o
    case Setup => m.setup
    case Help => m.help
    case ClientId => m.clientId.Some?
    case ClientSecret => m.clientSecret.Some?
    case From => m.from.Some?
    case To => m.to.Some?
    case Subject => m.subject.Some?
    case Body => m.body.Some?
  }

  /** `Matches::opt_str`: the value of an option; a flag never has one. */
  function OptStr(m: Matches, o: Opt): (r: Option<string>)
    ensures r.Some? ==> TakesValue(o)
    ensures TakesValue(o) ==> (r.Some? <==> OptPresent(m, o))
  {
    match o
    case Setup => None
    case Help => None
    case ClientId => m.clientId
    case ClientSecret => m.clientSecret
    case From => m.from
    case To => m.to
    case Subject => m.subject
    case Body => m.body
  }

  /** Distinct options are declared under distinct names, so a lookup by name is unambiguous. */
  lemma LongNamesDistinct(a: Opt, b: Opt)
    ensures LongName(a) == LongName(b) <==> a == b
  {
  }
}
