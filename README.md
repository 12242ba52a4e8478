# Settings parser of SendMailRust, in Dafny

SendMailRust is a small command-line program that sends a mail through the
Gmail API. It runs in one of two modes. `--setup --client_id ID
--client_secret SECRET` is meant to set up OAuth2 credentials (in this code
that step is still a stub that always fails). Otherwise it needs
`--from`, `--to`, `--subject` and `--body` to send a mail. Before anything
else, `SettingsParser::parse` validates the command line. It either builds a
`Settings` record or reports exactly one `SettingsParserErrorKind`. The
program prints that error's `Display` text above its usage text.

This project models that validator and proves what it promises:

- which error wins when several apply;
- when a parse can succeed at all;
- what a successful result contains;
- that every error kind displays as its own distinct text, ending in a newline.

Files:

- `wrappers.dfy`: module `Wrappers`, the `Option`/`Result` shapes of Rust's types.
- `getopts.dfy`: module `Getopts`, the result of a successful `getopts`
  tokenisation for the eight declared options (`Matches`, `OptPresent`,
  `OptStr`).
- `settings_parser.dfy`: module `SettingsParser`. It holds the error kinds,
  `Message`/`Display`, the `Settings` record, `Parse`, and a reference
  specification of the validation order. That specification is a table of
  nine requirements in order of precedence, with `FirstViolation` picking the
  first one that is not met.

`Parse(argCount, parsed)` takes the length of the argument vector, program
name included. It also takes what getopts made of that vector: `None` when
getopts rejected it, otherwise `Some(matches)`.

`OAuth2Flow` (src/oauth2_flow.rs) declares an authorize-URL step and a
code-exchange step, but both return the empty string (src/oauth2_flow.rs:12-18).
`Credentials::setup` always fails with `GenericError`
(src/credentials.rs:39-41). So the program has no OAuth2 logic to model.

## Model

| member | source | states |
|---|---|---|
| `Getopts.OptStr` | src/settings_parser.rs:63-70 | `--setup` and `--help` are flags and never carry a value; each of the other six options carries a value exactly when it occurred |
| `Getopts.LongNamesDistinct` | src/settings_parser.rs:63-70 | the eight options are declared under pairwise distinct long names, so a presence or value lookup by name picks out one option |
| `SettingsParser.Message` | src/settings_parser.rs:28-40 | every error kind has a non-empty fixed message, and the kind can be read back from that message |
| `SettingsParser.Display` | src/settings_parser.rs:26-43 | the displayed error is its kind's message followed by a newline (`writeln!`): the text ends in `\n` and what comes before it reads back as the error's kind |
| `SettingsParser.DisplayInjective` | src/settings_parser.rs:28-41 | two errors display as the same text exactly when they are the same error |
| `SettingsParser.Parse` | src/settings_parser.rs:81-125 | the parse succeeds exactly when the argument vector is not the program name alone, getopts accepted it, `--help` is absent, and either `--setup` came with `--client_id` and `--client_secret` or `--setup` is absent and `--from`, `--to`, `--subject`, `--body` all occurred; a successful result's `setup` is whether `--setup` occurred and each text field is its option's value or empty text when the option is absent; `GenericError` and `MissingCredentialFileSetupNeeded` are never reported |
| `SettingsParser.FirstViolation` | src/settings_parser.rs:83-123 | of an ordered list of requirements, yields nothing exactly when all are met, and otherwise the error of a requirement that is not met |
| `SettingsParser.FirstViolationAt` | src/settings_parser.rs:83-123 | an unmet requirement preceded only by met ones is the one whose error is reported (early returns in order) |
| `SettingsParser.ParseReportsFirstViolation` | src/settings_parser.rs:83-124 | `Parse` succeeds exactly when every requirement in the precedence table is met, and otherwise reports the error of the first unmet one |
| `SettingsParser.ProgramNameAloneIsNotEnough` | src/settings_parser.rs:83-85 | a one-element argument vector gives `NotEnoughArguments`, whatever getopts would make of it |
| `SettingsParser.RejectedArgumentsAreParsingError` | src/settings_parser.rs:86-89 | arguments getopts rejects give `ParsingError` (unless there is only the program name) |
| `SettingsParser.HelpWins` | src/settings_parser.rs:100-102 | once getopts accepted the arguments, `--help` gives `PrintHelp` even with `--setup` or all fields present |
| `SettingsParser.SetupChecksClientCredentials` | src/settings_parser.rs:103-111 | with `--setup` and no `--help`: a missing `--client_id` gives `SetupMissingClientId`; `--client_id` without `--client_secret` gives `SetupMissingClientSecret`; both present gives `Ok` with the settings built from the options, whatever the mail fields are |
| `SettingsParser.SetupSettingsMayLackMailFields` | src/settings_parser.rs:91-111 | a setup command line with no mail fields succeeds, with `setup` true, the given id and secret, and empty text for the four mail fields |
| `SettingsParser.MailFieldsCheckedInOrder` | src/settings_parser.rs:112-123 | without `--setup` and `--help`, the first missing field in the order `--from`, `--to`, `--subject`, `--body` decides the error |
| `SettingsParser.OutcomeDependsOnPresenceOnly` | src/settings_parser.rs:100-124 | validation looks only at which options occurred: two command lines with the same options succeed or fail alike and report the same error, even when the values differ or are empty |

## Left out

- Tokenisation by the `getopts` crate is not modelled. This covers splitting
  `--name value`, rejecting unknown, repeated or value-less options, and
  treating the program name as a free argument. Its outcome is an input to
  `Parse`: `None` for a rejection, otherwise the options that occurred.
  `argCount` and `parsed` are independent inputs, so the model also admits
  pairs getopts could not produce.
- Reading `env::args()` is I/O. Its length is the `argCount` parameter.
- `env::args()` panics when an argument is not valid Unicode
  (src/settings_parser.rs:82). That exit path of `parse` is not modelled:
  every argument vector here is already a sequence of strings.
- `SettingsParser::new` configures the getopts `Options` builder with the
  option table. That is library configuration; the table appears here only
  as the `Getopts.Opt` datatype, `Getopts.TakesValue` and `Getopts.LongName`.
  `LongName` exists so that `Getopts.LongNamesDistinct` can justify replacing
  the source's lookups by name, such as `opt_present("setup")`, with the
  `Opt` datatype.
- `SettingsParser::print_usage` formats and prints the usage text. That is
  I/O through the getopts crate.
- src/oauth2_flow.rs: both methods return the empty string, so there is no
  URL building or code exchange to model.
- src/credentials.rs: `load` and `save` are file I/O with JSON encoding
  (src/credentials.rs:43-57). `setup` is a stub that always fails.
- src/mail_sender.rs: an HTTP POST through hyper with a Bearer header.
- src/main.rs: glue that calls the parser, the credentials and the sender. It
  calls a `Credentials::load_and_refresh` that does not exist and passes
  `String` where `&str` is expected, so it is not part of this model.
- `SettingsParser.Display` does not state that the message holds no other
  line break. The model has the exact texts, but proving a character-level
  fact about each literal is left out.
