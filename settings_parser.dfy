/**
  The command-line settings validator of the mail sender: after `getopts` has
  tokenised the arguments, `Parse` either builds the `Settings` the program
  runs with or reports exactly one `SettingsParserErrorKind`, decided by an
  ordered chain of early returns. `Display` renders an error as the line the
  program prints above its usage text.
*/
module SettingsParser {
  import opened Wrappers
  import opened Getopts

  datatype SettingsParserErrorKind =
    | GenericError
    | NotEnoughArguments
    | MissingCredentialFileSetupNeeded
    | MissingFromField
    | MissingToField
    | MissingSubjectField
    | MissingBodyField
    | SetupMissingClientId
    | SetupMissingClientSecret
    | ParsingError
    | PrintHelp

  datatype SettingsParserError = SettingsParserError(kind: SettingsParserErrorKind)

  /** The configuration a successful parse produces. */
  datatype Settings = Settings(
    setup: bool,
    clientId: string,
    clientSecret: string,
    fromField: string,
    toField: string,
    subjectField: string,
    bodyField: string)

  // ---------------------------------------------------------------------------
  // Display
  // ---------------------------------------------------------------------------

  /** The fixed text of each error kind, non-empty and distinct from every other kind's. */
  function Message(kind: SettingsParserErrorKind): (r: string)
    ensures |r| > 0
    ensures KindOfMessage(r) == Some(kind)
  {
    match kind
    case GenericError => "Generic Error"
    case MissingCredentialFileSetupNeeded => "Missing Credential file Setup Needed"
    case MissingFromField => "Missing --from field"
    case MissingToField => "Missing --to field"
    case MissingSubjectField => "Missing --subject field"
    case MissingBodyField => "Missing --body field"
    case NotEnoughArguments => "Expected at least an argument"
    case SetupMissingClientId => "Setup requested but --client_id is missing"
    case SetupMissingClientSecret => "Setup requested but --client_secret is missing"
    case ParsingError => "Invalid arguments provided"
    case PrintHelp => "Program help requested"
  }

  /**
    Reads an error kind back from its message text: the reference inverse of
    `Message`, used to show that no two kinds print alike.
  */
  function KindOfMessage(s: string): Option<SettingsParserErrorKind> {
    if s == "Generic Error" then Some(GenericError)
    else if s == "Missing Credential file Setup Needed" then Some(MissingCredentialFileSetupNeeded)
    else if s == "Missing --from field" then Some(MissingFromField)
    else if s == "Missing --to field" then Some(MissingToField)
    else if s == "Missing --subject field" then Some(MissingSubjectField)
    else if s == "Missing --body field" then Some(MissingBodyField)
    else if s == "Expected at least an argument" then Some(NotEnoughArguments)
    else if s == "Setup requested but --client_id is missing" then Some(SetupMissingClientId)
    else if s == "Setup requested but --client_secret is missing" then Some(SetupMissingClientSecret)
    else if s == "Invalid arguments provided" then Some(ParsingError)
    else if s == "Program help requested" then Some(PrintHelp)
    else None
  }

  /**
    `fmt` for `SettingsParserError` (it uses `writeln!`): the kind's message,
    from which the kind can be read back, and then a newline.
  */
  function Display(e: SettingsParserError): (r: string)
    ensures |r| >= 2 && r[|r| - 1] == '\n'
    ensures KindOfMessage(r[..|r| - 1]) == Some(e.kind)
  {
    var line := Message(e.kind) + "\n";
    assert line[..|line| - 1] == Message(e.kind);
    line
  }

  /** Distinct error kinds are displayed as distinct text. */
  lemma DisplayInjective(a: SettingsParserError, b: SettingsParserError)
    ensures Display(a) == Display(b) <==> a == b
  {
  }

  // ---------------------------------------------------------------------------
  // Parsing
  // ---------------------------------------------------------------------------

  function Fail(kind: SettingsParserErrorKind): Result<Settings, SettingsParserError> {
    Err(SettingsParserError(kind))
  }

  /** The `Settings` record assembled from the matches before any check is made. */
  function SettingsOf(m: Matches): Settings {
    Settings(
      OptPresent(m, Setup),
      OptStr(m, ClientId).UnwrapOr(""),
      OptStr(m, ClientSecret).UnwrapOr(""),
      OptStr(m, From).UnwrapOr(""),
      OptStr(m, To).UnwrapOr(""),
      OptStr(m, Subject).UnwrapOr(""),
      OptStr(m, Body).UnwrapOr(""))
  }

  /**
    Each field of `s` is what the command line gave: `setup` is whether
    `--setup` occurred, every text field the value of its option, or the empty
    text when that option did not occur.
  */
  predicate CarriesOptions(s: Settings, m: Matches) {
    && (s.setup <==> OptPresent(m, Setup))
    && (if OptPresent(m, ClientId) then OptStr(m, ClientId) == Some(s.clientId) else s.clientId == "")
    && (if OptPresent(m, ClientSecret) then OptStr(m, ClientSecret) == Some(s.clientSecret) else s.clientSecret == "")
    && (if OptPresent(m, From) then OptStr(m, From) == Some(s.fromField) else s.fromField == "")
    && (if OptPresent(m, To) then OptStr(m, To) == Some(s.toField) else s.toField == "")
    && (if OptPresent(m, Subject) then OptStr(m, Subject) == Some(s.subjectField) else s.subjectField == "")
    && (if OptPresent(m, Body) then OptStr(m, Body) == Some(s.bodyField) else s.bodyField == "")
  }

  /**
    When a parse can succeed at all: the argument vector is not the program
    name alone, getopts accepted it, help was not asked for, and either setup
    was requested with both client credentials, or it was not and all four
    mail fields were given.
  */
  predicate Acceptable(argCount: nat, parsed: Option<Matches>) {
    && argCount != 1
    && parsed.Some?
    && !OptPresent(parsed.value, Help)
    && (|| (OptPresent(parsed.value, Setup)
            && OptPresent(parsed.value, ClientId) && OptPresent(parsed.value, ClientSecret))
        || (!OptPresent(parsed.value, Setup)
            && OptPresent(parsed.value, From) && OptPresent(parsed.value, To)
            && OptPresent(parsed.value, Subject) && OptPresent(parsed.value, Body)))
  }

  /**
    `SettingsParser::parse`. `argCount` is the length of the argument vector
    (program name included); `parsed` is what getopts made of it, `None` when
    getopts rejected it.
  */
  function Parse(argCount: nat, parsed: Option<Matches>): (r: Result<Settings, SettingsParserError>)
    ensures r.Ok? <==> Acceptable(argCount, parsed)
    ensures r.Ok? ==> CarriesOptions(r.value, parsed.value)
    ensures r.Err? ==> r.error.kind !in {GenericError, MissingCredentialFileSetupNeeded}
  {
    if argCount == 1 then Fail(NotEnoughArguments)
    else if parsed.None? then Fail(ParsingError)
    else
      var m := parsed.value;
      var settings := SettingsOf(m);
      if OptPresent(m, Help) then Fail(PrintHelp)
      else if OptPresent(m, Setup) then
        if !OptPresent(m, ClientId) then Fail(SetupMissingClientId)
        else if !OptPresent(m, ClientSecret) then Fail(SetupMissingClientSecret)
        else Ok(settings)
      else if !OptPresent(m, From) then Fail(MissingFromField)
      else if !OptPresent(m, To) then Fail(MissingToField)
      else if !OptPresent(m, Subject) then Fail(MissingSubjectField)
      else if !OptPresent(m, Body) then Fail(MissingBodyField)
      else Ok(settings)
  }

  // ---------------------------------------------------------------------------
  // The validation order, as a table of requirements
  // ---------------------------------------------------------------------------

  /** One requirement on the command line and the error reported when it is not met. */
  datatype Requirement = Requirement(met: bool, failure: SettingsParserErrorKind)

  /**
    The failure of the first requirement in `reqs` that is not met, or `None`
    when all are met.
  */
  function FirstViolation(reqs: seq<Requirement>): (r: Option<SettingsParserErrorKind>)
    ensures r.None? <==> forall i :: 0 <= i < |reqs| ==> reqs[i].met
    ensures r.Some? ==> exists i :: 0 <= i < |reqs| && !reqs[i].met && reqs[i].failure == r.value
  {
    if reqs == [] then None
    else if !reqs[0].met then Some(reqs[0].failure)
    else
      var rest := FirstViolation(reqs[1..]);
      assert forall i :: 1 <= i < |reqs| ==> reqs[i] == reqs[1..][i - 1];
      rest
  }

  /** A violated requirement preceded only by met ones is the one reported. */
  lemma {:induction false} FirstViolationAt(reqs: seq<Requirement>, k: nat)
    requires k < |reqs| && !reqs[k].met
    requires forall j :: 0 <= j < k ==> reqs[j].met
    ensures FirstViolation(reqs) == Some(reqs[k].failure)
  {
    if k > 0 {
      FirstViolationAt(reqs[1..], k - 1);
    }
  }

  /** The mail fields, in the order they are required. */
  const MailFields: seq<Opt> := [From, To, Subject, Body]

  /** The error reported for a missing mail field. */
  function MissingField(o: Opt): SettingsParserErrorKind
    requires o in MailFields
  {
    match o
    case From => MissingFromField
    case To => MissingToField
    case Subject => MissingSubjectField
    case Body => MissingBodyField
  }

  /**
    Every requirement the validator imposes, each stated on its own, in the
    order of precedence between their errors. A requirement on the options is
    met vacuously when getopts rejected the arguments, and the setup and mail
    requirements each apply only on their own path.
  */
  function Requirements(argCount: nat, parsed: Option<Matches>): seq<Requirement> {
    var given := (o: Opt) => parsed.Some? && OptPresent(parsed.value, o);
    var setup := given(Setup);
    [ Requirement(argCount != 1, NotEnoughArguments),
      Requirement(parsed.Some?, ParsingError),
      Requirement(!given(Help), PrintHelp),
      Requirement(parsed.None? || !setup || given(ClientId), SetupMissingClientId),
      Requirement(parsed.None? || !setup || given(ClientSecret), SetupMissingClientSecret),
      Requirement(parsed.None? || setup || given(From), MissingFromField),
      Requirement(parsed.None? || setup || given(To), MissingToField),
      Requirement(parsed.None? || setup || given(Subject), MissingSubjectField),
      Requirement(parsed.None? || setup || given(Body), MissingBodyField) ]
  }

  /**
    The error `Parse` reports is that of the first unmet requirement, and it
    succeeds exactly when every requirement is met.
  */
  lemma ParseReportsFirstViolation(argCount: nat, parsed: Option<Matches>)
    ensures Parse(argCount, parsed).Ok? <==> FirstViolation(Requirements(argCount, parsed)).None?
    ensures Parse(argCount, parsed).Err? ==>
      FirstViolation(Requirements(argCount, parsed)) == Some(Parse(argCount, parsed).error.kind)
  {
    var reqs := Requirements(argCount, parsed);
    if argCount == 1 {
      FirstViolationAt(reqs, 0);
    } else if parsed.None? {
      FirstViolationAt(reqs, 1);
    } else {
      var m := parsed.value;
      if OptPresent(m, Help) {
        FirstViolationAt(reqs, 2);
      } else if OptPresent(m, Setup) {
        if !OptPresent(m, ClientId) {
          FirstViolationAt(reqs, 3);
        } else if !OptPresent(m, ClientSecret) {
          FirstViolationAt(reqs, 4);
        }
      } else if !OptPresent(m, From) {
        FirstViolationAt(reqs, 5);
      } else if !OptPresent(m, To) {
        FirstViolationAt(reqs, 6);
      } else if !OptPresent(m, Subject) {
        FirstViolationAt(reqs, 7);
      } else if !OptPresent(m, Body) {
        FirstViolationAt(reqs, 8);
      }
    }
  }

  // ---------------------------------------------------------------------------
  // Which error wins
  // ---------------------------------------------------------------------------

  /** A program name alone is rejected before getopts' verdict or any option is looked at. */
  lemma ProgramNameAloneIsNotEnough(parsed: Option<Matches>)
    ensures Parse(1, parsed) == Fail(NotEnoughArguments)
  {
  }

  /** Arguments getopts rejects are reported as such, and nothing later is checked. */
  lemma RejectedArgumentsAreParsingError(argCount: nat)
    requires argCount != 1
    ensures Parse(argCount, None) == Fail(ParsingError)
  {
  }

  /** `--help` wins over `--setup` and over every missing or present field. */
  lemma HelpWins(argCount: nat, m: Matches)
    requires argCount != 1 && OptPresent(m, Help)
    ensures Parse(argCount, Some(m)) == Fail(PrintHelp)
  {
  }

  /**
    With `--setup` (and no `--help`) only the client credentials are checked,
    id before secret; the mail fields play no part in the outcome.
  */
  lemma SetupChecksClientCredentials(argCount: nat, m: Matches)
    requires argCount != 1 && !OptPresent(m, Help) && OptPresent(m, Setup)
    ensures !OptPresent(m, ClientId) ==> Parse(argCount, Some(m)) == Fail(SetupMissingClientId)
    ensures OptPresent(m, ClientId) && !OptPresent(m, ClientSecret) ==>
      Parse(argCount, Some(m)) == Fail(SetupMissingClientSecret)
    ensures OptPresent(m, ClientId) && OptPresent(m, ClientSecret) ==>
      Parse(argCount, Some(m)) == Ok(SettingsOf(m))
  {
  }

  /**
    On the setup path the mail fields may all be absent; the settings then
    carry empty text for them.
  */
  lemma SetupSettingsMayLackMailFields(argCount: nat, id: string, secret: string)
    requires argCount != 1
    ensures Parse(argCount, Some(Matches(true, false, Some(id), Some(secret), None, None, None, None)))
      == Ok(Settings(true, id, secret, "", "", "", ""))
  {
  }

  /**
    Without `--setup` and `--help`, the first of `--from`, `--to`, `--subject`,
    `--body` (in that order) that is missing decides the error.
  */
  lemma {:induction false} MailFieldsCheckedInOrder(argCount: nat, m: Matches, i: nat)
    requires argCount != 1 && !OptPresent(m, Help) && !OptPresent(m, Setup)
    requires i < |MailFields| && !OptPresent(m, MailFields[i])
    requires forall j :: 0 <= j < i ==> OptPresent(m, MailFields[j])
    ensures Parse(argCount, Some(m)) == Fail(MissingField(MailFields[i]))
  {
    if i > 0 { assert OptPresent(m, MailFields[0]); }
    if i > 1 { assert OptPresent(m, MailFields[1]); }
    if i > 2 { assert OptPresent(m, MailFields[2]); }
  }

  /**
    Validation looks only at which options occurred, never at their values:
    command lines giving the same options succeed or fail alike, with the
    same error (an option given with an empty value counts as given).
  */
  lemma OutcomeDependsOnPresenceOnly(argCount: nat, m1: Matches, m2: Matches)
    requires forall o: Opt :: OptPresent(m1, o) <==> OptPresent(m2, o)
    ensures Parse(argCount, Some(m1)).Ok? <==> Parse(argCount, Some(m2)).Ok?
    ensures Parse(argCount, Some(m1)).Err? ==> Parse(argCount, Some(m1)) == Parse(argCount, Some(m2))
  {
  }
}
