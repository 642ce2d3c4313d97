# y2start argument parser, modelled in Dafny

This project models the command-line parser of the YaST `y2start` launcher,
`Yast::Y2StartHelpers.parse_arguments` and its private helpers
`parse_generic_options`, `parse_client_options` and `option?`
(`src/ruby/yast/y2start_helpers.rb`). The launcher's command line has the shape

    y2start [generic-opts] CLIENT [client-opts] SERVER [server-opts...]

and the parser splits it into a generic-options hash (only `:help`), the client
name, the client-options hash (`params:`, the values of repeated `-a`/`--arg`),
the server name and the untouched rest as server options. Every failure is a
`RuntimeError` with a fixed message; here it is `Err(message)` of a `Result`.

Files:

- `wrappers.dfy` — `Option` (Ruby `nil` is `None`) and `Result`.
- `ruby_array.dfy` — the Ruby core operations the parser relies on:
  `Array#first`, `Array#shift` (on the class `ArgList`, the array the parser
  consumes in place), `String#[0]` and interpolation of a possibly-nil value.
- `y2start_helpers.dfy` — the parser. Each phase is a recursive specification
  function (`GenericLoop`, `ClientLoop`, `Parse`) and an imperative method that
  shifts tokens off a shared `ArgList` in a `while` loop, as the Ruby `loop do`
  does (`ParseGenericOptions`, `ParseClientOptions`, `ParseArguments`). Each
  method is proved to compute its function and, on every return path, raise
  included, to leave in the caller's array exactly what the Ruby code leaves
  there (`GenericLeftover`, `ClientLeftover`, `ParseLeftover`).
- `y2start_properties.dfy` — lemmas about the specification functions: both
  directions of each phase (which inputs are accepted and what comes out;
  which outcome every input has, and what each outcome leaves in the array),
  the help short-circuit, the launch-line round trip, the four error
  messages, and the concrete command lines of the usage text.

Behaviour kept exactly as the code has it:

- The generic phase reports an unknown option with the token that follows
  it, because the message interpolates `args.first` after the `shift`; when
  nothing follows, `nil` interpolates to `""` and the message is
  `"Unknown option "` (`GenericLoopRejects`, `HelpThenTrailingUnknownExample`).
- After `-h` the generic loop keeps going, so a leading `-h` does not always
  give help: `["-h", "-x", "foo"]` fails with `"Unknown option foo"`
  (`HelpThenUnknownExample`). Help is returned only when the leading run of
  option-like tokens consists of help flags alone (`ParseHelp`,
  `ParseHelpShape`).
- The empty string is truthy in Ruby, so `""` is a valid client name, server
  name and `--arg` value, not a missing one. `option?("")` is false because
  `""[0]` is `nil` (`IsOption`, `EmptyStringsExample`).

## Model

| member | source | states |
|---|---|---|
| `Y2StartHelpers.IsOption` | src/ruby/yast/y2start_helpers.rb:127-132 | a token is option-like exactly when it is present, non-empty and starts with `-`; `nil` and `""` never are |
| `Y2StartHelpers.GenericLoop` | src/ruby/yast/y2start_helpers.rb:92-106 | on success the remaining tokens are a suffix of the input that does not start with an option, and the hash gains `help: true` exactly when some token was consumed; every failure is an "Unknown option" message |
| `Y2StartHelpers.ClientLoop` | src/ruby/yast/y2start_helpers.rb:108-125 | on success the remaining tokens are a suffix not starting with an option, earlier `params` are kept as a prefix, and two tokens were consumed per new value; every failure is "Missing argument for --arg" or an "Unknown option" message |
| `Y2StartHelpers.Parse` | src/ruby/yast/y2start_helpers.rb:12-24 | on a full result neither the client name nor the server name is option-like, and the server options are a suffix of the input at least two tokens shorter |
| `Y2StartHelpers.GenericLeftover` | src/ruby/yast/y2start_helpers.rb:92-106 | what the generic phase leaves in the array, on return or raise, is a suffix of the input, strictly shorter when the input starts with an option |
| `Y2StartHelpers.ClientLeftover` | src/ruby/yast/y2start_helpers.rb:108-125 | what the client phase leaves in the array, on return or raise, is a suffix of the input, strictly shorter when the input starts with an option |
| `Y2StartHelpers.ParseLeftover` | src/ruby/yast/y2start_helpers.rb:12-24 | what the whole parser leaves in the array, on return or raise, is a suffix of the input |
| `Y2StartHelpers.ParseGenericOptions` | src/ruby/yast/y2start_helpers.rb:92-106 | the in-place loop returns or raises what `GenericLoop` specifies, and on every return path the array holds exactly `GenericLeftover` of its old contents |
| `Y2StartHelpers.ParseClientOptions` | src/ruby/yast/y2start_helpers.rb:108-125 | the in-place loop returns or raises what `ClientLoop` specifies, and on every return path the array holds exactly `ClientLeftover` of its old contents |
| `Y2StartHelpers.ParseArguments` | src/ruby/yast/y2start_helpers.rb:12-24 | the in-place parser returns or raises `Parse` of the original array; on every return path the array holds exactly `ParseLeftover` of its old contents, and on a full result that is the server options |
| `Y2StartProperties.GenericLoopAccepts` | src/ruby/yast/y2start_helpers.rb:94-101 | a run of `-h`/`--help` followed by a non-option or nothing is accepted; help is set exactly when the run is non-empty and the rest is handed on, and left in the array, untouched |
| `Y2StartProperties.GenericLoopRejects` | src/ruby/yast/y2start_helpers.rb:98-103 | the first non-help option, even after help flags, fails with "Unknown option " and the token after it (empty if none), leaving the tokens after the rejected option in the array |
| `Y2StartProperties.GenericLoopOutcomes` | src/ruby/yast/y2start_helpers.rb:92-106 | the generic phase succeeds exactly when the leading help flags are followed by a non-option, then hands on what follows them, and otherwise fails naming the token after the first offending option |
| `Y2StartProperties.GenericLeftoverOutcomes` | src/ruby/yast/y2start_helpers.rb:92-106 | the generic phase leaves in the array what follows the leading help flags when a non-option follows them, and otherwise what follows the first offending option |
| `Y2StartProperties.ClientLoopAccepts` | src/ruby/yast/y2start_helpers.rb:110-120 | flag/value pairs followed by a non-option are accepted and every value is appended to `params` in input order, duplicates and `-`-values included |
| `Y2StartProperties.ClientLeftoverAccepts` | src/ruby/yast/y2start_helpers.rb:110-120 | after accepted flag/value pairs the array holds exactly the tokens that follow them |
| `Y2StartProperties.ClientLoopMissingArg` | src/ruby/yast/y2start_helpers.rb:116-118 | `-a`/`--arg` as the last token fails with "Missing argument for --arg" and leaves the array empty |
| `Y2StartProperties.ClientLoopRejects` | src/ruby/yast/y2start_helpers.rb:121-122 | any other option in a flag position fails with "Unknown option " and that very token, leaving the tokens after it in the array |
| `Y2StartProperties.ClientLoopOutcomes` | src/ruby/yast/y2start_helpers.rb:108-125 | after the leading flag/value pairs the client phase succeeds exactly when a non-option or nothing follows, and then hands on and leaves what follows; it fails with "Missing argument for --arg" exactly when a lone `-a`/`--arg` is left, leaving nothing; otherwise it fails naming the first token after the pairs and leaves what follows that token |
| `Y2StartProperties.ClientLoopUnknown` | src/ruby/yast/y2start_helpers.rb:121-122 | a client phase that fails with an "Unknown option" message names the first token after the flag/value pairs and leaves the tokens after it |
| `Y2StartProperties.ClientLoopConsumesPairs` | src/ruby/yast/y2start_helpers.rb:108-125 | a successful client phase consumed exactly `-a`/`--arg` flags each followed by the value it added, and nothing else |
| `Y2StartProperties.ClientLoopErrors` | src/ruby/yast/y2start_helpers.rb:115-123 | every client-phase failure is a missing value or an unknown option that names an option-like token of the input |
| `Y2StartProperties.ParseHelp` | src/ruby/yast/y2start_helpers.rb:15-17 | help flags followed by any non-option tokens give only `{generic_options: {help: true}}`, with no client or server |
| `Y2StartProperties.ParseGenericUnknown` | src/ruby/yast/y2start_helpers.rb:98-103 | an unknown generic option after any help flags makes the whole parse fail with the next token's name, and no result |
| `Y2StartProperties.ParseLaunch` | src/ruby/yast/y2start_helpers.rb:18-21 | client name, flag/value pairs, server name and any server options parse back to exactly those parts with empty generic options |
| `Y2StartProperties.ParseMissingClient` | src/ruby/yast/y2start_helpers.rb:18 | the parse fails with "Missing client name." if and only if the input is empty |
| `Y2StartProperties.ParseMissingServer` | src/ruby/yast/y2start_helpers.rb:20 | input exhausted after the client name and its options fails with "Missing server name." |
| `Y2StartProperties.ParseMissingArg` | src/ruby/yast/y2start_helpers.rb:117-118 | a trailing `-a`/`--arg` after the client name fails with "Missing argument for --arg" |
| `Y2StartProperties.ParseClientUnknown` | src/ruby/yast/y2start_helpers.rb:121-122 | an unknown client option fails with its own name, whatever follows |
| `Y2StartProperties.ParseHelpShape` | src/ruby/yast/y2start_helpers.rb:93-101 | a help result holds only `{help: true}` and came from a non-empty run of help flags ended by a non-option or the end of input |
| `Y2StartProperties.ParseLaunchShape` | src/ruby/yast/y2start_helpers.rb:12-24 | a full result has empty generic options and the input is exactly client name ++ flag/value pairs ++ server name ++ server options |
| `Y2StartProperties.ClientPhase` | src/ruby/yast/y2start_helpers.rb:18-21 | once the generic phase found no option and no help, the first token is the client name, and the result and what is left in the array are decided by the client phase on the tokens after it |
| `Y2StartProperties.ParseLeftoverHelp` | src/ruby/yast/y2start_helpers.rb:15-17 | a help result leaves in the array the tokens after the leading help flags |
| `Y2StartProperties.ParseLeftoverLaunch` | src/ruby/yast/y2start_helpers.rb:18-21 | a full result leaves in the array exactly its server options |
| `Y2StartProperties.ParseLeftoverGenericUnknown` | src/ruby/yast/y2start_helpers.rb:98-103 | a rejected generic option leaves in the array the tokens after it |
| `Y2StartProperties.ParseLeftoverMissing` | src/ruby/yast/y2start_helpers.rb:18-20 | a missing client name, server name or `--arg` value leaves the array empty |
| `Y2StartProperties.ParseLeftoverClientUnknown` | src/ruby/yast/y2start_helpers.rb:114-122 | a rejected client option is the first token after the client name and its flag/value pairs; the message names it and the array keeps the tokens after it |
| `Y2StartProperties.ParseErrorMessages` | src/ruby/yast/y2start_helpers.rb:18-20 | every failure carries one of the four fixed messages (missing client, missing server, missing argument, unknown option) |
| `Y2StartProperties.ParseAfterClientName` | src/ruby/yast/y2start_helpers.rb:18-21 | with no leading option the first token is the client name and the client phase decides the outcome: its error, a missing server name when nothing is left, or the launch with the next token as server name and the rest as server options |
| `Y2StartProperties.UsagePlainExample` | src/ruby/yast/y2start_helpers.rb:39-40 | `installation qt` gives client `installation`, no params, server `qt`, no server options |
| `Y2StartProperties.UsageArgExample` | src/ruby/yast/y2start_helpers.rb:41-42 | `installation -a initial qt` gives params `["initial"]` and server `qt` |
| `Y2StartProperties.UsageServerOptionsExample` | src/ruby/yast/y2start_helpers.rb:43-44 | `installation qt -geometry 800x600` passes `-geometry 800x600` through as server options |
| `Y2StartProperties.HelpThenUnknownExample` | src/ruby/yast/y2start_helpers.rb:94-105 | `-h -x foo` fails with "Unknown option foo" instead of returning help |
| `Y2StartProperties.HelpThenTrailingUnknownExample` | src/ruby/yast/y2start_helpers.rb:98-103 | `--help -x` fails with "Unknown option " (nil interpolated as empty) |
| `Y2StartProperties.HelpFlagsExample` | src/ruby/yast/y2start_helpers.rb:15-17 | `-h --help installation` gives only `{help: true}` |
| `Y2StartProperties.EmptyStringsExample` | src/ruby/yast/y2start_helpers.rb:127-132 | `"" -a "" ""` parses with `""` as client name, `--arg` value and server name |
| `Y2StartProperties.UnknownClientOptionExample` | src/ruby/yast/y2start_helpers.rb:121-122 | `c -x s` fails with "Unknown option -x" |
| `Y2StartProperties.MissingArgExample` | src/ruby/yast/y2start_helpers.rb:116-118 | `c --arg` fails with "Missing argument for --arg" |

## Left out

- `help` (lines 26-45): a constant usage string with no behaviour; only its three example command lines are modelled, as `UsagePlainExample`, `UsageArgExample` and `UsageServerOptionsExample`.
- `setup_signals`, `signal_handler`, `signal_log_open` and `LOG_LOCATIONS` (lines 47-90): signal dispositions, standard-error output, the clock, backtraces, the `signal-postmortem` subprocess, re-raising the signal and the log-file fallback all depend on the operating system and the file system, which the model cannot observe.
- `ParseArguments`: the Ruby result hash holds the caller's array object itself as `:server_options`, so later changes to that array show through the hash; the model states the array's contents on every return path (`ParseLeftover`), and that they equal `serverOptions` on a full result, but not the sharing itself.
- The input is a list of strings; a `nil` element, which a command line cannot contain, is not modelled (`Array#shift` returning `nil` therefore means the array was empty).
- Hash keys are Ruby symbols; the model names the one generic key `Help` and gives the client-options hash a single `params` field.
