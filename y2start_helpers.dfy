/** The command-line parser of the `y2start` launcher
    (`Yast::Y2StartHelpers.parse_arguments` and its private helpers).

    The command line has the shape
      `[generic-opts] CLIENT [client-opts] SERVER [server-opts...]`.
    Each phase is given twice: as a recursive function over the remaining
    tokens, which is the specification, and as a method that consumes a
    shared `ArgList` in place with `Shift`, as the Ruby code does, proved
    equal to that function. */
module Y2StartHelpers {
  import opened Wrappers
  import opened RubyArray

  /** The only key of the generic-options hash: `:help`. */
  datatype GenericOption = Help

  /** The generic-options hash: `{}` or `{help: true}`. */
  type GenericOptions = map<GenericOption, bool>

  /** The client-options hash, which always holds `params:`. */
  datatype ClientOptions = ClientOptions(params: seq<string>)

  /** The hash `parse_arguments` returns. After `--help` it holds only
      `:generic_options`; otherwise it holds all five keys. */
  datatype Arguments =
    | HelpRequested(genericOptions: GenericOptions)
    | Launch(genericOptions: GenericOptions, clientName: string,
             clientOptions: ClientOptions, serverName: string,
             serverOptions: seq<string>)

  /** `res[:help]` is truthy. */
  predicate HelpSet(res: GenericOptions)
  {
    Help in res && res[Help]
  }

  predicate IsHelpFlag(arg: string)
  {
    arg == "-h" || arg == "--help"
  }

  predicate IsArgFlag(arg: string)
  {
    arg == "-a" || arg == "--arg"
  }

  /** A message raised for an unrecognised option. */
  predicate UnknownOptionMessage(m: string)
  {
    |m| >= 15 && m[..15] == "Unknown option "
  }

  /** `option?`: whether a (possibly nil) token looks like an option. */
  function IsOption(arg: Option<string>): (r: bool)
    ensures r <==> arg.Some? && |arg.value| > 0 && arg.value[0] == '-'
  {
    match arg
    case None => false
    case Some(s) => CharAt0(s) == Some("-")
  }

  /** The loop of `parse_generic_options` from the token list `args` on,
      with `res` built so far. On success it yields the hash and the
      tokens left for the next phase. */
  function GenericLoop(args: seq<string>, res: GenericOptions)
    : (r: Result<(GenericOptions, seq<string>)>)
    decreases |args|
    ensures r.Ok? ==> IsSuffix(r.value.1, args) && !IsOption(First(r.value.1))
    ensures r.Ok? && r.value.1 == args ==> r.value.0 == res
    ensures r.Ok? && r.value.1 != args ==> r.value.0 == res[Help := true]
    ensures r.Err? ==> UnknownOptionMessage(r.message)
  {
    if !IsOption(First(args)) then Ok((res, args))
    else
      var arg, rest := args[0], args[1..];
      if IsHelpFlag(arg) then
        var helped := res[Help := true];
        assert helped[Help := true] == helped;
        GenericLoop(rest, helped)
      else
        var message := "Unknown option " + Interpolate(First(rest));
        assert message[..15] == "Unknown option ";
        Err(message)
  }

  /** The loop of `parse_client_options` from `args` on, with `res` built
      so far. Every consumed `-a`/`--arg` consumes its value too. */
  function ClientLoop(args: seq<string>, res: ClientOptions)
    : (r: Result<(ClientOptions, seq<string>)>)
    decreases |args|
    ensures r.Ok? ==> IsSuffix(r.value.1, args) && !IsOption(First(r.value.1))
    ensures r.Ok? ==>
      && |res.params| <= |r.value.0.params|
      && r.value.0.params[..|res.params|] == res.params
      && |args| - |r.value.1| == 2 * (|r.value.0.params| - |res.params|)
    ensures r.Err? ==> r.message == "Missing argument for --arg" || UnknownOptionMessage(r.message)
  {
    if !IsOption(First(args)) then Ok((res, args))
    else
      var arg, rest := args[0], args[1..];
      if IsArgFlag(arg) then
        match First(rest)
        case None => Err("Missing argument for --arg")
        case Some(param) => ClientLoop(rest[1..], ClientOptions(res.params + [param]))
      else
        var message := "Unknown option " + arg;
        assert message[..15] == "Unknown option ";
        Err(message)
  }

  /** `parse_arguments` on the token list `args`. */
  function Parse(args: seq<string>): (r: Result<Arguments>)
    ensures r.Ok? && r.value.Launch? ==>
      && !IsOption(Some(r.value.clientName))
      && !IsOption(Some(r.value.serverName))
      && |r.value.serverOptions| + 2 <= |args|
      && IsSuffix(r.value.serverOptions, args)
  {
    match GenericLoop(args, map[])
    case Err(e) => Err(e)
    case Ok((generic, afterGeneric)) =>
      if HelpSet(generic) then Ok(HelpRequested(generic))
      else
        match First(afterGeneric)
        case None => Err("Missing client name.")
        case Some(clientName) =>
          match ClientLoop(afterGeneric[1..], ClientOptions([]))
          case Err(e) => Err(e)
          case Ok((clientOptions, afterClient)) =>
            match First(afterClient)
            case None => Err("Missing server name.")
            case Some(serverName) =>
              Ok(Launch(generic, clientName, clientOptions, serverName, afterClient[1..]))
  }

  /** What `parse_generic_options` leaves in the array, whether it returns
      or raises: the tokens after the help flags it accepted, or after the
      option it rejected. */
  function GenericLeftover(args: seq<string>): (rest: seq<string>)
    decreases |args|
    ensures IsSuffix(rest, args)
    ensures IsOption(First(args)) ==> |rest| < |args|
  {
    if !IsOption(First(args)) then args
    else if IsHelpFlag(args[0]) then GenericLeftover(args[1..])
    else args[1..]
  }

  /** What `parse_client_options` leaves in the array, whether it returns
      or raises: the tokens after the flag/value pairs it accepted, after
      the option it rejected, or nothing after a flag without a value. */
  function ClientLeftover(args: seq<string>): (rest: seq<string>)
    decreases |args|
    ensures IsSuffix(rest, args)
    ensures IsOption(First(args)) ==> |rest| < |args|
  {
    if !IsOption(First(args)) then args
    else if IsArgFlag(args[0]) then
      if |args| < 2 then [] else ClientLeftover(args[2..])
    else args[1..]
  }

  /** What `parse_arguments` leaves in the array, whether it returns or
      raises: each phase's leftover, minus the client and server names it
      shifted. */
  function ParseLeftover(args: seq<string>): (rest: seq<string>)
    ensures IsSuffix(rest, args)
  {
    var afterGeneric := GenericLeftover(args);
    match GenericLoop(args, map[])
    case Err(_) => afterGeneric
    case Ok((generic, _)) =>
      if HelpSet(generic) || afterGeneric == [] then afterGeneric
      else
        var afterClient := ClientLeftover(afterGeneric[1..]);
        SuffixTransitive(afterGeneric[1..], afterGeneric, args);
        SuffixTransitive(afterClient, afterGeneric[1..], args);
        if ClientLoop(afterGeneric[1..], ClientOptions([])).Err? then afterClient
        else
          SuffixTransitive(Rest(afterClient), afterClient, args);
          Rest(afterClient)
  }

  /** `parse_generic_options(args)`: shifts generic options off `args`. */
  method ParseGenericOptions(args: ArgList) returns (r: Result<GenericOptions>)
    modifies args
    ensures args.items == GenericLeftover(old(args.items))
    ensures GenericLoop(old(args.items), map[])
         == if r.Ok? then Ok((r.value, args.items)) else Err(r.message)
  {
    var res: GenericOptions := map[];
    while IsOption(args.Peek())
      invariant GenericLeftover(old(args.items)) == GenericLeftover(args.items)
      invariant GenericLoop(old(args.items), map[]) == GenericLoop(args.items, res)
      decreases |args.items|
    {
      var arg := args.Shift();
      if arg == Some("-h") || arg == Some("--help") {
        res := res[Help := true];
      } else {
        return Err("Unknown option " + Interpolate(args.Peek()));
      }
    }
    r := Ok(res);
  }

  /** `parse_client_options(args)`: shifts client options off `args`. */
  method ParseClientOptions(args: ArgList) returns (r: Result<ClientOptions>)
    modifies args
    ensures args.items == ClientLeftover(old(args.items))
    ensures ClientLoop(old(args.items), ClientOptions([]))
         == if r.Ok? then Ok((r.value, args.items)) else Err(r.message)
  {
    var res := ClientOptions([]);
    while IsOption(args.Peek())
      invariant ClientLeftover(old(args.items)) == ClientLeftover(args.items)
      invariant ClientLoop(old(args.items), ClientOptions([])) == ClientLoop(args.items, res)
      decreases |args.items|
    {
      var arg := args.Shift();
      if arg == Some("-a") || arg == Some("--arg") {
        var param := args.Shift();
        if param.None? {
          return Err("Missing argument for --arg");
        }
        res := ClientOptions(res.params + [param.value]);
      } else {
        return Err("Unknown option " + Interpolate(arg));
      }
    }
    r := Ok(res);
  }

  /** `parse_arguments(args)`. On success without help, what is left of
      `args` is the server options, as the Ruby code hands back the
      consumed array itself. */
  method ParseArguments(args: ArgList) returns (r: Result<Arguments>)
    modifies args
    ensures r == Parse(old(args.items))
    ensures args.items == ParseLeftover(old(args.items))
    ensures r.Ok? && r.value.Launch? ==> args.items == r.value.serverOptions
  {
    var generic := ParseGenericOptions(args);
    if generic.Err? {
      return Err(generic.message);
    }
    if HelpSet(generic.value) {
      return Ok(HelpRequested(generic.value));
    }
    var clientName := args.Shift();
    if clientName.None? {
      return Err("Missing client name.");
    }
    var clientOptions := ParseClientOptions(args);
    if clientOptions.Err? {
      return Err(clientOptions.message);
    }
    var serverName := args.Shift();
    if serverName.None? {
      return Err("Missing server name.");
    }
    r := Ok(Launch(generic.value, clientName.value, clientOptions.value,
                   serverName.value, args.items));
  }
}
