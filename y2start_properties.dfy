/** What `parse_arguments` promises, stated about the specification
    functions of `Y2StartHelpers` (and so, through their `ensures`, about
    the in-place methods as well). */
module Y2StartProperties {
  import opened Wrappers
  import opened RubyArray
  import opened Y2StartHelpers

  predicate AllHelpFlags(hs: seq<string>)
  {
    forall i :: 0 <= i < |hs| ==> IsHelpFlag(hs[i])
  }

  predicate AllArgFlags(fs: seq<string>)
  {
    forall i :: 0 <= i < |fs| ==> IsArgFlag(fs[i])
  }

  /** The client-option tokens `fs[0] ps[0] fs[1] ps[1] ...`: each flag
      followed by its value. */
  function Interleave(fs: seq<string>, ps: seq<string>): (r: seq<string>)
    requires |fs| == |ps|
    ensures |r| == 2 * |fs|
  {
    if fs == [] then [] else [fs[0], ps[0]] + Interleave(fs[1..], ps[1..])
  }

  lemma FlagsAreOptions(t: string)
    requires IsHelpFlag(t) || IsArgFlag(t)
    ensures IsOption(Some(t))
  {
  }

  // ---------------------------------------------------------------------
  // The generic-options loop

  /** A run of help flags followed by a non-option (or nothing) is
      accepted; help is set exactly when the run is not empty. */
  lemma {:induction false} GenericLoopAccepts(hs: seq<string>, rest: seq<string>, res: GenericOptions)
    requires AllHelpFlags(hs) && !IsOption(First(rest))
    ensures GenericLoop(hs + rest, res)
         == Ok((if hs == [] then res else res[Help := true], rest))
    ensures GenericLeftover(hs + rest) == rest
  {
    if hs == [] {
      assert hs + rest == rest;
    } else {
      FlagsAreOptions(hs[0]);
      assert (hs + rest)[1..] == hs[1..] + rest;
      GenericLoopAccepts(hs[1..], rest, res[Help := true]);
      assert res[Help := true][Help := true] == res[Help := true];
    }
  }

  /** The first option that is not a help flag is rejected, even after
      help flags, and the message names the token that FOLLOWS it (empty
      when nothing follows). */
  lemma {:induction false} GenericLoopRejects(hs: seq<string>, x: string, rest: seq<string>, res: GenericOptions)
    requires AllHelpFlags(hs) && IsOption(Some(x)) && !IsHelpFlag(x)
    ensures GenericLoop(hs + [x] + rest, res) == Err("Unknown option " + Interpolate(First(rest)))
    ensures GenericLeftover(hs + [x] + rest) == rest
  {
    if hs == [] {
      assert hs + [x] + rest == [x] + rest;
      assert ([x] + rest)[1..] == rest;
    } else {
      FlagsAreOptions(hs[0]);
      assert (hs + [x] + rest)[1..] == hs[1..] + [x] + rest;
      GenericLoopRejects(hs[1..], x, rest, res[Help := true]);
    }
  }

  /** The number of help flags at the front of `args`. */
  function LeadingHelpFlags(args: seq<string>): (n: nat)
    ensures n <= |args| && AllHelpFlags(args[..n])
    ensures n < |args| ==> !IsHelpFlag(args[n])
  {
    if args == [] || !IsHelpFlag(args[0]) then 0
    else
      var m := LeadingHelpFlags(args[1..]);
      assert args[..m + 1] == [args[0]] + args[1..][..m];
      1 + m
  }

  /** Every outcome of the generic loop, in terms of the run of help flags
      at the front: it succeeds exactly when the run is followed by a
      non-option (or nothing), and otherwise names the token after the
      first offending option. */
  lemma {:induction false} GenericLoopOutcomes(args: seq<string>, res: GenericOptions)
    ensures var n, r := LeadingHelpFlags(args), GenericLoop(args, res);
      && (r.Ok? <==> !IsOption(First(args[n..])))
      && (r.Ok? ==> r.value.1 == args[n..])
      && (r.Err? ==> n < |args| && r.message == "Unknown option " + Interpolate(First(args[n + 1..])))
  {
    if args == [] || !IsHelpFlag(args[0]) {
      assert args[0..] == args;
    } else {
      FlagsAreOptions(args[0]);
      GenericLoopOutcomes(args[1..], res[Help := true]);
      var m := LeadingHelpFlags(args[1..]);
      assert args[1..][m..] == args[m + 1..];
      if m < |args| - 1 {
        assert args[1..][m + 1..] == args[m + 2..];
      }
    }
  }

  /** What the generic phase leaves in the array, in the same terms: the
      tokens after the run of help flags when a non-option (or nothing)
      follows it, and otherwise the tokens after the offending option. */
  lemma {:induction false} GenericLeftoverOutcomes(args: seq<string>)
    ensures var n := LeadingHelpFlags(args);
      GenericLeftover(args)
        == if !IsOption(First(args[n..])) then args[n..] else args[n + 1..]
  {
    if args == [] || !IsHelpFlag(args[0]) {
      assert args[0..] == args;
    } else {
      FlagsAreOptions(args[0]);
      GenericLeftoverOutcomes(args[1..]);
      var m := LeadingHelpFlags(args[1..]);
      assert args[1..][m..] == args[m + 1..];
      if m < |args| - 1 {
        assert args[1..][m + 1..] == args[m + 2..];
      }
    }
  }

  // ---------------------------------------------------------------------
  // The client-options loop

  /** Flag/value pairs followed by a non-option (or nothing) are accepted:
      the values are appended to `params` in input order, duplicates and
      values that start with `-` included. */
  lemma {:induction false} ClientLoopAccepts(fs: seq<string>, ps: seq<string>, rest: seq<string>, res: ClientOptions)
    requires |fs| == |ps| && AllArgFlags(fs) && !IsOption(First(rest))
    ensures ClientLoop(Interleave(fs, ps) + rest, res) == Ok((ClientOptions(res.params + ps), rest))
  {
    if fs == [] {
      assert Interleave(fs, ps) + rest == rest;
      assert res.params + ps == res.params;
    } else {
      FlagsAreOptions(fs[0]);
      var tail := Interleave(fs[1..], ps[1..]) + rest;
      assert Interleave(fs, ps) + rest == [fs[0], ps[0]] + tail;
      assert ([fs[0], ps[0]] + tail)[1..][1..] == tail;
      ClientLoopAccepts(fs[1..], ps[1..], rest, ClientOptions(res.params + [ps[0]]));
      assert res.params + [ps[0]] + ps[1..] == res.params + ps;
    }
  }

  /** After accepted flag/value pairs the array keeps what follows them. */
  lemma {:induction false} ClientLeftoverAccepts(fs: seq<string>, ps: seq<string>, rest: seq<string>)
    requires |fs| == |ps| && AllArgFlags(fs) && !IsOption(First(rest))
    ensures ClientLeftover(Interleave(fs, ps) + rest) == rest
  {
    if fs == [] {
      assert Interleave(fs, ps) + rest == rest;
    } else {
      FlagsAreOptions(fs[0]);
      var tail := Interleave(fs[1..], ps[1..]) + rest;
      assert Interleave(fs, ps) + rest == [fs[0], ps[0]] + tail;
      assert ([fs[0], ps[0]] + tail)[2..] == tail;
      ClientLeftoverAccepts(fs[1..], ps[1..], rest);
    }
  }

  /** `-a`/`--arg` as the last token has no value. */
  lemma {:induction false} ClientLoopMissingArg(fs: seq<string>, ps: seq<string>, f: string, res: ClientOptions)
    requires |fs| == |ps| && AllArgFlags(fs) && IsArgFlag(f)
    ensures ClientLoop(Interleave(fs, ps) + [f], res) == Err("Missing argument for --arg")
    ensures ClientLeftover(Interleave(fs, ps) + [f]) == []
  {
    FlagsAreOptions(f);
    if fs == [] {
      assert Interleave(fs, ps) + [f] == [f];
      assert [f][1..] == [];
    } else {
      FlagsAreOptions(fs[0]);
      var tail := Interleave(fs[1..], ps[1..]) + [f];
      assert Interleave(fs, ps) + [f] == [fs[0], ps[0]] + tail;
      assert ([fs[0], ps[0]] + tail)[1..][1..] == tail;
      ClientLoopMissingArg(fs[1..], ps[1..], f, ClientOptions(res.params + [ps[0]]));
    }
  }

  /** Any other option in a flag position is rejected by its own name. */
  lemma {:induction false} ClientLoopRejects(fs: seq<string>, ps: seq<string>, x: string, rest: seq<string>, res: ClientOptions)
    requires |fs| == |ps| && AllArgFlags(fs) && IsOption(Some(x)) && !IsArgFlag(x)
    ensures ClientLoop(Interleave(fs, ps) + [x] + rest, res) == Err("Unknown option " + x)
    ensures ClientLeftover(Interleave(fs, ps) + [x] + rest) == rest
  {
    if fs == [] {
      assert Interleave(fs, ps) + [x] + rest == [x] + rest;
      assert ([x] + rest)[1..] == rest;
    } else {
      FlagsAreOptions(fs[0]);
      var tail := Interleave(fs[1..], ps[1..]) + [x] + rest;
      assert Interleave(fs, ps) + [x] + rest == [fs[0], ps[0]] + tail;
      assert ([fs[0], ps[0]] + tail)[1..][1..] == tail;
      ClientLoopRejects(fs[1..], ps[1..], x, rest, ClientOptions(res.params + [ps[0]]));
    }
  }

  /** The number of `-a`/`--arg` flags at the front of `args` that have a
      value after them, each counted with its value. */
  function LeadingArgPairs(args: seq<string>): (k: nat)
    ensures 2 * k <= |args|
    ensures |args| - 2 * k >= 2 ==> !IsArgFlag(args[2 * k])
  {
    if |args| >= 2 && IsArgFlag(args[0]) then
      var k := LeadingArgPairs(args[2..]);
      assert args[2..][2 * k..] == args[2 * k + 2..];
      1 + k
    else 0
  }

  /** Every outcome of the client loop, in terms of the flag/value pairs at
      the front: it succeeds exactly when they are followed by a non-option
      (or nothing); it reports a missing value exactly when a lone flag is
      left; otherwise it names the first option after the pairs. The array
      keeps what follows the pairs, or what follows the offending token. */
  lemma {:induction false} ClientLoopOutcomes(args: seq<string>, res: ClientOptions)
    ensures var k, r := LeadingArgPairs(args), ClientLoop(args, res);
      var tail := args[2 * k..];
      && (r.Ok? <==> !IsOption(First(tail)))
      && (r.Ok? ==> r.value.1 == tail)
      && (r.Err? ==> (r.message == "Missing argument for --arg" <==> |tail| == 1 && IsArgFlag(tail[0])))
      && (r.Err? && r.message != "Missing argument for --arg" ==> r.message == "Unknown option " + tail[0])
      && ClientLeftover(args) == if r.Ok? then tail else tail[1..]
    decreases |args|
  {
    if |args| >= 2 && IsArgFlag(args[0]) {
      FlagsAreOptions(args[0]);
      var res' := ClientOptions(res.params + [args[1]]);
      assert args[1..][1..] == args[2..];
      ClientLoopOutcomes(args[2..], res');
      var k := LeadingArgPairs(args[2..]);
      assert args[2..][2 * k..] == args[2 * k + 2..];
    } else {
      assert args[0..] == args;
      var m := "Missing argument for --arg";
      assert m[0] == 'M';
      if IsOption(First(args)) && !IsArgFlag(args[0]) {
        assert ("Unknown option " + args[0])[0] == 'U';
      }
    }
  }

  /** Every successful run of the client loop consumed flag/value pairs
      and nothing else. */
  lemma {:induction false} ClientLoopConsumesPairs(args: seq<string>, res: ClientOptions,
                                                    ps: seq<string>, rest: seq<string>)
    requires ClientLoop(args, res) == Ok((ClientOptions(res.params + ps), rest))
    ensures exists fs :: |fs| == |ps| && AllArgFlags(fs) && args == Interleave(fs, ps) + rest
    decreases |args|
  {
    if !IsOption(First(args)) {
      assert ps == [];
      assert args == Interleave([], ps) + rest;
    } else {
      ClientLoopStep(args, res);
      var res' := ClientOptions(res.params + [args[1]]);
      PrefixStep(res.params, ps, args[1]);
      ClientLoopConsumesPairs(args[2..], res', ps[1..], rest);
      var fs' :| |fs'| == |ps| - 1 && AllArgFlags(fs') && args[2..] == Interleave(fs', ps[1..]) + rest;
      PrependPair(args, fs', ps[1..], rest);
      PairsWitness(args, [args[0]] + fs', ps, rest);
    }
  }

  lemma PairsWitness(args: seq<string>, fs: seq<string>, ps: seq<string>, rest: seq<string>)
    requires |fs| == |ps| && |fs| > 0 && IsArgFlag(fs[0]) && AllArgFlags(fs[1..])
    requires args == Interleave(fs, ps) + rest
    ensures exists fs :: |fs| == |ps| && AllArgFlags(fs) && args == Interleave(fs, ps) + rest
  {
    assert forall i :: 1 <= i < |fs| ==> fs[i] == fs[1..][i - 1];
    assert AllArgFlags(fs);
  }

  /** The value appended by one turn is the first of the new values. */
  lemma PrefixStep(before: seq<string>, ps: seq<string>, p: string)
    requires |before| + 1 <= |before + ps| && (before + ps)[..|before| + 1] == before + [p]
    ensures ps != [] && ps[0] == p && (before + [p]) + ps[1..] == before + ps
  {
    assert (before + ps)[|before|] == (before + [p])[|before|];
  }

  /** One successful turn of the client loop consumes a flag and its value. */
  lemma ClientLoopStep(args: seq<string>, res: ClientOptions)
    requires ClientLoop(args, res).Ok? && IsOption(First(args))
    ensures IsArgFlag(args[0]) && |args| >= 2
    ensures ClientLoop(args, res) == ClientLoop(args[2..], ClientOptions(res.params + [args[1]]))
  {
    assert args[1..][1..] == args[2..];
  }

  /** A flag and its value in front of pairs are one more pair. */
  lemma PrependPair(args: seq<string>, fs: seq<string>, ps: seq<string>, rest: seq<string>)
    requires |args| >= 2 && |fs| == |ps| && args[2..] == Interleave(fs, ps) + rest
    ensures args == Interleave([args[0]] + fs, [args[1]] + ps) + rest
  {
    assert ([args[0]] + fs)[1..] == fs;
    assert ([args[1]] + ps)[1..] == ps;
    assert args == [args[0], args[1]] + args[2..];
  }

  /** Every failure of the client loop is a missing value or an unknown
      option, named by itself. */
  lemma {:induction false} ClientLoopErrors(args: seq<string>, res: ClientOptions)
    requires ClientLoop(args, res).Err?
    ensures var m := ClientLoop(args, res).message;
      || m == "Missing argument for --arg"
      || exists j :: 0 <= j < |args| && IsOption(Some(args[j])) && !IsArgFlag(args[j])
                     && m == "Unknown option " + args[j]
    decreases |args|
  {
    var m := ClientLoop(args, res).message;
    if IsArgFlag(args[0]) && |args| >= 2 {
      ClientLoopErrors(args[2..], ClientOptions(res.params + [args[1]]));
      if m != "Missing argument for --arg" {
        var j :| 0 <= j < |args| - 2 && IsOption(Some(args[2..][j])) && !IsArgFlag(args[2..][j])
                 && m == "Unknown option " + args[2..][j];
        assert args[2..][j] == args[j + 2];
      }
    }
  }

  // ---------------------------------------------------------------------
  // parse_arguments

  /** One or more help flags followed by anything that does not start
      with an option: only `{generic_options: {help: true}}`, whatever
      positional tokens remain. */
  lemma ParseHelp(hs: seq<string>, rest: seq<string>)
    requires hs != [] && AllHelpFlags(hs) && !IsOption(First(rest))
    ensures Parse(hs + rest) == Ok(HelpRequested(map[Help := true]))
  {
    GenericLoopAccepts(hs, rest, map[]);
  }

  /** An unknown generic option, after any number of help flags, fails
      with the token that follows it in the message. */
  lemma ParseGenericUnknown(hs: seq<string>, x: string, rest: seq<string>)
    requires AllHelpFlags(hs) && IsOption(Some(x)) && !IsHelpFlag(x)
    ensures Parse(hs + [x] + rest) == Err("Unknown option " + Interpolate(First(rest)))
  {
    GenericLoopRejects(hs, x, rest, map[]);
  }

  /** Without a leading option the generic phase is skipped: the first
      token is the client name and the client phase decides the rest. */
  lemma ParseAfterClientName(c: string, tail: seq<string>)
    requires !IsOption(Some(c))
    ensures Parse([c] + tail) == match ClientLoop(tail, ClientOptions([]))
      case Err(e) => Err(e)
      case Ok((co, rest)) =>
        if rest == [] then Err("Missing server name.")
        else Ok(Launch(map[], c, co, rest[0], rest[1..]))
  {
    assert GenericLoop([c] + tail, map[]) == Ok((map[], [c] + tail));
    assert ([c] + tail)[1..] == tail;
  }

  /** The launch line round trip: a client name, flag/value pairs, a
      server name and arbitrary server options parse back to exactly
      these parts, with an empty generic-options hash. */
  lemma ParseLaunch(c: string, fs: seq<string>, ps: seq<string>, s: string, so: seq<string>)
    requires !IsOption(Some(c)) && !IsOption(Some(s))
    requires |fs| == |ps| && AllArgFlags(fs)
    ensures Parse([c] + Interleave(fs, ps) + [s] + so)
         == Ok(Launch(map[], c, ClientOptions(ps), s, so))
  {
    var tail := Interleave(fs, ps) + ([s] + so);
    assert [c] + Interleave(fs, ps) + [s] + so == [c] + tail;
    ClientLoopAccepts(fs, ps, [s] + so, ClientOptions([]));
    assert [] + ps == ps;
    assert ClientLoop(tail, ClientOptions([])) == Ok((ClientOptions(ps), [s] + so));
    assert ([s] + so)[1..] == so;
    ParseAfterClientName(c, tail);
  }

  /** The client name is missing exactly when the input is empty. */
  lemma ParseMissingClient(args: seq<string>)
    ensures Parse(args) == Err("Missing client name.") <==> args == []
  {
    var m := "Missing client name.";
    assert m[0] == 'M';
    assert !UnknownOptionMessage(m);
    if args != [] {
      var r := GenericLoop(args, map[]);
      if r.Ok? && !HelpSet(r.value.0) {
        assert r.value.1 == args;
      }
    }
  }

  /** Input exhausted after the client options: the server name is
      missing. */
  lemma ParseMissingServer(c: string, fs: seq<string>, ps: seq<string>)
    requires !IsOption(Some(c)) && |fs| == |ps| && AllArgFlags(fs)
    ensures Parse([c] + Interleave(fs, ps)) == Err("Missing server name.")
  {
    assert Interleave(fs, ps) + [] == Interleave(fs, ps);
    ClientLoopAccepts(fs, ps, [], ClientOptions([]));
    ParseAfterClientName(c, Interleave(fs, ps));
  }

  /** `-a`/`--arg` as the last token. */
  lemma ParseMissingArg(c: string, fs: seq<string>, ps: seq<string>, f: string)
    requires !IsOption(Some(c)) && |fs| == |ps| && AllArgFlags(fs) && IsArgFlag(f)
    ensures Parse([c] + Interleave(fs, ps) + [f]) == Err("Missing argument for --arg")
  {
    var tail := Interleave(fs, ps) + [f];
    assert [c] + Interleave(fs, ps) + [f] == [c] + tail;
    ClientLoopMissingArg(fs, ps, f, ClientOptions([]));
    ParseAfterClientName(c, tail);
  }

  /** An unknown client option fails with its own name. */
  lemma ParseClientUnknown(c: string, fs: seq<string>, ps: seq<string>, x: string, rest: seq<string>)
    requires !IsOption(Some(c)) && |fs| == |ps| && AllArgFlags(fs)
    requires IsOption(Some(x)) && !IsArgFlag(x)
    ensures Parse([c] + Interleave(fs, ps) + [x] + rest) == Err("Unknown option " + x)
  {
    var tail := Interleave(fs, ps) + [x] + rest;
    assert [c] + Interleave(fs, ps) + [x] + rest == [c] + tail;
    ClientLoopRejects(fs, ps, x, rest, ClientOptions([]));
    assert ClientLoop(tail, ClientOptions([])) == Err("Unknown option " + x);
    ParseAfterClientName(c, tail);
  }

  /** A help result holds nothing but `{help: true}` and came from a
      non-empty run of help flags ending at a non-option (or at the end). */
  lemma ParseHelpShape(args: seq<string>)
    requires Parse(args).Ok? && Parse(args).value.HelpRequested?
    ensures Parse(args).value.genericOptions == map[Help := true]
    ensures var n := LeadingHelpFlags(args); n > 0 && !IsOption(First(args[n..]))
  {
    GenericLoopOutcomes(args, map[]);
  }

  /** A launch result: empty generic options, and the whole input is
      client name, flag/value pairs, server name and server options, in
      that order. */
  lemma ParseLaunchShape(args: seq<string>)
    requires Parse(args).Ok? && Parse(args).value.Launch?
    ensures var a := Parse(args).value;
      && a.genericOptions == map[]
      && exists fs :: |fs| == |a.clientOptions.params| && AllArgFlags(fs)
           && args == [a.clientName] + Interleave(fs, a.clientOptions.params)
                      + [a.serverName] + a.serverOptions
  {
    var a := Parse(args).value;
    LaunchPhases(args);
    ClientLoopConsumesPairs(args[1..], ClientOptions([]), a.clientOptions.params,
                            [a.serverName] + a.serverOptions);
    var fs :| |fs| == |a.clientOptions.params| && AllArgFlags(fs)
              && args[1..] == Interleave(fs, a.clientOptions.params) + ([a.serverName] + a.serverOptions);
    Reassemble(args, fs, a.clientOptions.params, a.serverName, a.serverOptions);
  }

  /** The phases a launch result went through. */
  lemma LaunchPhases(args: seq<string>)
    requires Parse(args).Ok? && Parse(args).value.Launch?
    ensures var a := Parse(args).value;
      && a.genericOptions == map[] && args != [] && args[0] == a.clientName
      && ClientLoop(args[1..], ClientOptions([]))
         == Ok((ClientOptions([] + a.clientOptions.params), [a.serverName] + a.serverOptions))
  {
    var g := GenericLoop(args, map[]);
    assert g.value.1 == args;
    var cl := ClientLoop(args[1..], ClientOptions([]));
    assert [] + cl.value.0.params == cl.value.0.params;
    assert cl.value.1 == [cl.value.1[0]] + cl.value.1[1..];
  }

  lemma Reassemble(args: seq<string>, fs: seq<string>, ps: seq<string>, s: string, so: seq<string>)
    requires |args| >= 1 && |fs| == |ps| && args[1..] == Interleave(fs, ps) + ([s] + so)
    ensures args == [args[0]] + Interleave(fs, ps) + [s] + so
  {
    assert args == [args[0]] + args[1..];
  }

  /** Every failure carries one of the four fixed messages; nothing else
      is ever raised. */
  lemma ParseErrorMessages(args: seq<string>)
    requires Parse(args).Err?
    ensures var m := Parse(args).message;
      || m == "Missing client name."
      || m == "Missing server name."
      || m == "Missing argument for --arg"
      || UnknownOptionMessage(m)
  {
  }

  /** After a help result the array keeps the tokens after the help
      flags. */
  lemma {:induction false} ParseLeftoverHelp(args: seq<string>)
    requires Parse(args).Ok? && Parse(args).value.HelpRequested?
    ensures ParseLeftover(args) == args[LeadingHelpFlags(args)..]
  {
    GenericLoopOutcomes(args, map[]);
    GenericLeftoverOutcomes(args);
  }

  /** After a launch result the array keeps exactly the server options. */
  lemma {:induction false} ParseLeftoverLaunch(args: seq<string>)
    requires Parse(args).Ok? && Parse(args).value.Launch?
    ensures ParseLeftover(args) == Parse(args).value.serverOptions
  {
    GenericLoopOutcomes(args, map[]);
    GenericLeftoverOutcomes(args);
    assert args[0..] == args;
    ClientLoopOutcomes(args[1..], ClientOptions([]));
  }

  /** After a rejected generic option the array keeps the tokens after
      it. */
  lemma {:induction false} ParseLeftoverGenericUnknown(args: seq<string>)
    requires GenericLoop(args, map[]).Err?
    ensures var n := LeadingHelpFlags(args);
      n < |args| && ParseLeftover(args) == args[n + 1..]
  {
    GenericLoopOutcomes(args, map[]);
    GenericLeftoverOutcomes(args);
  }

  /** When a name or a value is missing the array is left empty. */
  lemma {:induction false} ParseLeftoverMissing(args: seq<string>)
    requires || Parse(args) == Err("Missing client name.")
             || Parse(args) == Err("Missing server name.")
             || Parse(args) == Err("Missing argument for --arg")
    ensures ParseLeftover(args) == []
  {
    var m1, m2, m3 := "Missing client name.", "Missing server name.", "Missing argument for --arg";
    assert m1[0] == m2[0] == m3[0] == 'M';
    assert !UnknownOptionMessage(m1) && !UnknownOptionMessage(m2) && !UnknownOptionMessage(m3);
    if args != [] {
      ClientPhase(args);
      var c := ClientLoop(args[1..], ClientOptions([]));
      ClientLoopOutcomes(args[1..], ClientOptions([]));
      var k := LeadingArgPairs(args[1..]);
      assert args[1..][2 * k..] == args[2 * k + 1..];
    }
  }

  /** After a rejected client option the array keeps the tokens after
      it; the rejected option is the first token after the client name
      and the flag/value pairs that follow it. */
  lemma {:induction false} ParseLeftoverClientUnknown(args: seq<string>)
    requires Parse(args).Err? && GenericLoop(args, map[]).Ok?
    requires UnknownOptionMessage(Parse(args).message)
    ensures args != []
    ensures var k := LeadingArgPairs(args[1..]);
      && 2 * k + 1 < |args|
      && Parse(args).message == "Unknown option " + args[2 * k + 1]
      && ParseLeftover(args) == args[2 * k + 2..]
  {
    var m1, m2 := "Missing client name.", "Missing server name.";
    assert m1[0] == m2[0] == 'M';
    assert !UnknownOptionMessage(m1) && !UnknownOptionMessage(m2);
    assert args != [];
    assert !HelpSet(GenericLoop(args, map[]).value.0);
    ClientPhase(args);
    var tail := args[1..];
    var c := ClientLoop(tail, ClientOptions([]));
    assert c.Err? && Parse(args) == Err(c.message);
    ClientLoopUnknown(tail);
    var k := LeadingArgPairs(tail);
    assert tail[2 * k + 1..] == args[2 * k + 2..];
  }

  /** A client loop that rejects an option rejects the first token after
      the flag/value pairs, and leaves the tokens after it. */
  lemma {:induction false} ClientLoopUnknown(tail: seq<string>)
    requires ClientLoop(tail, ClientOptions([])).Err?
    requires UnknownOptionMessage(ClientLoop(tail, ClientOptions([])).message)
    ensures var k := LeadingArgPairs(tail);
      && 2 * k < |tail|
      && ClientLoop(tail, ClientOptions([])).message == "Unknown option " + tail[2 * k]
      && ClientLeftover(tail) == tail[2 * k + 1..]
  {
    ClientLoopOutcomes(tail, ClientOptions([]));
    var m := "Missing argument for --arg";
    assert m[0] == 'M' && !UnknownOptionMessage(m);
  }

  /** Once the generic phase has found no option, the first token is the
      client name and both the result and the leftover are decided by the
      client phase on the tokens after it. */
  lemma {:induction false} ClientPhase(args: seq<string>)
    requires GenericLoop(args, map[]).Ok? && !HelpSet(GenericLoop(args, map[]).value.0)
    requires args != []
    ensures !IsOption(First(args))
    ensures Parse(args) == match ClientLoop(args[1..], ClientOptions([]))
      case Err(e) => Err(e)
      case Ok((co, rest)) =>
        if rest == [] then Err("Missing server name.")
        else Ok(Launch(map[], args[0], co, rest[0], rest[1..]))
    ensures ParseLeftover(args)
         == if ClientLoop(args[1..], ClientOptions([])).Err? then ClientLeftover(args[1..])
            else Rest(ClientLeftover(args[1..]))
  {
    assert GenericLoop(args, map[]).value.1 == args;
    assert args == [args[0]] + args[1..];
    ParseAfterClientName(args[0], args[1..]);
  }

  // ---------------------------------------------------------------------
  // Concrete command lines

  /** The usage text's `y2start installation qt`. */
  lemma UsagePlainExample()
    ensures Parse(["installation", "qt"])
         == Ok(Launch(map[], "installation", ClientOptions([]), "qt", []))
  {
    assert ["installation", "qt"] == ["installation"] + Interleave([], []) + ["qt"] + [];
    ParseLaunch("installation", [], [], "qt", []);
  }

  /** The usage text's `y2start installation -a initial qt`. */
  lemma UsageArgExample()
    ensures Parse(["installation", "-a", "initial", "qt"])
         == Ok(Launch(map[], "installation", ClientOptions(["initial"]), "qt", []))
  {
    assert Interleave(["-a"], ["initial"]) == ["-a", "initial"];
    assert ["installation", "-a", "initial", "qt"]
        == ["installation"] + Interleave(["-a"], ["initial"]) + ["qt"] + [];
    ParseLaunch("installation", ["-a"], ["initial"], "qt", []);
  }

  /** The usage text's `y2start installation qt -geometry 800x600`. */
  lemma UsageServerOptionsExample()
    ensures Parse(["installation", "qt", "-geometry", "800x600"])
         == Ok(Launch(map[], "installation", ClientOptions([]), "qt", ["-geometry", "800x600"]))
  {
    assert ["installation", "qt", "-geometry", "800x600"]
        == ["installation"] + Interleave([], []) + ["qt"] + ["-geometry", "800x600"];
    ParseLaunch("installation", [], [], "qt", ["-geometry", "800x600"]);
  }

  /** After `-h` the loop goes on: `-x` is rejected, naming `foo`. */
  lemma HelpThenUnknownExample()
    ensures Parse(["-h", "-x", "foo"]) == Err("Unknown option foo")
  {
    assert ["-h", "-x", "foo"] == ["-h"] + ["-x"] + ["foo"];
    ParseGenericUnknown(["-h"], "-x", ["foo"]);
  }

  /** A rejected last generic option is reported as "Unknown option ". */
  lemma HelpThenTrailingUnknownExample()
    ensures Parse(["--help", "-x"]) == Err("Unknown option ")
  {
    assert ["--help", "-x"] == ["--help"] + ["-x"] + [];
    ParseGenericUnknown(["--help"], "-x", []);
  }

  /** The empty string is not an option, so it serves as client name,
      `--arg` value and server name. */
  lemma EmptyStringsExample()
    ensures Parse(["", "-a", "", ""]) == Ok(Launch(map[], "", ClientOptions([""]), "", []))
  {
    assert Interleave(["-a"], [""]) == ["-a", ""];
    assert ["", "-a", "", ""] == [""] + Interleave(["-a"], [""]) + [""] + [];
    ParseLaunch("", ["-a"], [""], "", []);
  }

  /** Help flags followed by a client name give help only. */
  lemma HelpFlagsExample()
    ensures Parse(["-h", "--help", "installation"]) == Ok(HelpRequested(map[Help := true]))
  {
    assert ["-h", "--help", "installation"] == ["-h", "--help"] + ["installation"];
    ParseHelp(["-h", "--help"], ["installation"]);
  }

  /** An unknown client option is named by itself. */
  lemma UnknownClientOptionExample()
    ensures Parse(["c", "-x", "s"]) == Err("Unknown option -x")
  {
    assert ["c", "-x", "s"] == ["c"] + Interleave([], []) + ["-x"] + ["s"];
    ParseClientUnknown("c", [], [], "-x", ["s"]);
  }

  /** A trailing `--arg` has no value. */
  lemma MissingArgExample()
    ensures Parse(["c", "--arg"]) == Err("Missing argument for --arg")
  {
    assert ["c", "--arg"] == ["c"] + Interleave([], []) + ["--arg"];
    ParseMissingArg("c", [], [], "--arg");
  }
}
