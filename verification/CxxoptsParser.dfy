/** `cxxopts::ParseResult`: the single pass over `argv` that consumes arguments and compacts the rest in place. */
module CxxoptsParser {
  import opened Wrappers
  import opened CxxoptsSpec
  import opened CxxoptsLaws
  import opened CxxoptsTheorems
  import CxxoptsReadings

  datatype KeyValue = KeyValue(key: string, value: string)

  // `arguments()`: each feed, under its option's long name.
  ghost function Keyed(cfg: Config, feeds: seq<Feed>): (r: seq<KeyValue>)
    ensures |r| == |feeds|
  {
    seq(|feeds|, i requires 0 <= i < |feeds| =>
      KeyValue(if feeds[i].option < |cfg.details| then cfg.details[feeds[i].option].longName else "", feeds[i].value))
  }

  class ParseResult {
    const cfg: Config
    var counts: seq<nat>             // how often each option was given
    var nextPositional: nat
    var arguments: seq<KeyValue>
    ghost var feeds: seq<Feed>

    ghost predicate Valid()
      reads this
    {
      cfg.Valid() && |counts| == |cfg.details| && arguments == Keyed(cfg, feeds)
    }

    ghost function St(): State
      reads this
    {
      State(counts, nextPositional, feeds)
    }

    constructor (cfg: Config)
      requires cfg.Valid()
      ensures this.cfg == cfg && Valid() && St() == Initial(cfg)
    {
      this.cfg := cfg;
      counts := seq(|cfg.details|, _ => 0);
      nextPositional := 0;
      arguments := [];
      feeds := [];
    }

    method ParseOption(id: nat, arg: string) returns (error: Option<ParseError>)
      requires Valid() && id < |cfg.details|
      modifies this
      ensures Valid()
      ensures CxxoptsSpec.ParseOption(cfg, old(St()), id, arg) == (if error.None? then Ok(St()) else Err(error.value))
      ensures error == if cfg.accepts(id, arg) then None else Some(IncorrectType)
      ensures error.None? ==>
        && counts == old(counts)[id := old(counts[id]) + 1] && feeds == old(feeds) + [Feed(id, arg)]
        && arguments == old(arguments) + [KeyValue(cfg.details[id].longName, arg)]
    {
      counts := counts[id := counts[id] + 1];
      if !cfg.accepts(id, arg) {
        return Some(IncorrectType);
      }
      arguments := arguments + [KeyValue(cfg.details[id].longName, arg)];
      feeds := feeds + [Feed(id, arg)];
      return None;
    }

    method ConsumePositional(a: string) returns (r: Result<Option<nat>, ParseError>)
      requires Valid()
      modifies this
      ensures Valid()
      ensures CxxoptsSpec.ConsumePositional(cfg, old(St()), a) == (if r.Ok? then Ok((r.value, St())) else Err(r.error))
    {
      while nextPositional < |cfg.positional|
        invariant Valid()
        invariant CxxoptsSpec.ConsumePositional(cfg, old(St()), a) == CxxoptsSpec.ConsumePositional(cfg, St(), a)
        decreases |cfg.positional| - nextPositional
      {
        var name := cfg.positional[nextPositional];
        if name in cfg.options {
          var id := cfg.options[name];
          if !cfg.details[id].isContainer {
            if counts[id] == 0 {
              var error := ParseOption(id, a);
              if error.Some? {
                return Err(error.value);
              }
              nextPositional := nextPositional + 1;
              return Ok(Some(nextPositional - 1));
            } else {
              nextPositional := nextPositional + 1;
            }
          } else {
            var error := ParseOption(id, a);
            if error.Some? {
              return Err(error.value);
            }
            return Ok(Some(nextPositional));
          }
        } else {
          return Err(OptionNotExists);
        }
      }
      return Ok(None);
    }

    method CheckedParseArg(argc: nat, argv: array<string>, current: nat, id: nat) returns (r: Result<nat, ParseError>)
      requires Valid() && id < |cfg.details| && current < argc <= argv.Length
      modifies this
      ensures Valid()
      ensures CxxoptsSpec.CheckedParseArg(cfg, old(St()), id, Following(argv[..argc], current))
              == (if r.Ok? then Ok((r.value == current + 1, St())) else Err(r.error))
      ensures r.Ok? ==> current <= r.value <= current + 1 && r.value < argc
      ensures cfg.details[id].hasImplicit ==>
        var text := cfg.details[id].implicitValue;
        if cfg.accepts(id, text) then r == Ok(current) && feeds == old(feeds) + [Feed(id, text)]
        else r == Err(IncorrectType)
      ensures !cfg.details[id].hasImplicit && current + 1 >= argc ==> r == Err(MissingArgument)
      ensures !cfg.details[id].hasImplicit && current + 1 < argc ==>
        if cfg.accepts(id, argv[current + 1]) then
          r == Ok(current + 1) && feeds == old(feeds) + [Feed(id, argv[current + 1])]
        else r == Err(IncorrectType)
    {
      if current + 1 >= argc {
        if cfg.details[id].hasImplicit {
          var error := ParseOption(id, cfg.details[id].implicitValue);
          r := if error.Some? then Err(error.value) else Ok(current);
        } else {
          r := Err(MissingArgument);
        }
      } else {
        if cfg.details[id].hasImplicit {
          var error := ParseOption(id, cfg.details[id].implicitValue);
          r := if error.Some? then Err(error.value) else Ok(current);
        } else {
          var error := ParseOption(id, argv[current + 1]);
          r := if error.Some? then Err(error.value) else Ok(current + 1);
        }
      }
    }

    method ParseShortGroup(argc: nat, argv: array<string>, start: nat, s: string) returns (r: Result<nat, ParseError>)
      requires Valid() && start < argc <= argv.Length
      modifies this
      ensures Valid()
      ensures ShortGroup(cfg, old(St()), s, 0, Following(argv[..argc], start))
              == (if r.Ok? then Ok((r.value == start + 1, St())) else Err(r.error))
      ensures r.Ok? ==> start <= r.value <= start + 1 && r.value < argc
    {
      ghost var following := Following(argv[..argc], start);
      var i := 0;
      while i != |s|
        invariant Valid() && i <= |s|
        invariant ShortGroup(cfg, old(St()), s, 0, following) == ShortGroup(cfg, St(), s, i, following)
        decreases |s| - i
      {
        var name := [s[i]];
        if name !in cfg.options {
          if cfg.allowUnrecognised {
            i := i + 1;
            continue;
          } else {
            return Err(OptionNotExists);
          }
        }
        var value := cfg.options[name];
        if i + 1 == |s| {
          r := CheckedParseArg(argc, argv, start, value);
          return;
        } else if cfg.details[value].hasImplicit {
          var error := ParseOption(value, cfg.details[value].implicitValue);
          if error.Some? {
            return Err(error.value);
          }
        } else {
          return Err(OptionRequiresArgument);
        }
        i := i + 1;
      }
      return Ok(start);
    }

    // One turn of the main loop, up to `++current`: what the argument at `current` is, and where the turn leaves
    // `current`.
    method ParseArgument(argc: nat, argv: array<string>, current: nat) returns (r: Result<(Role, nat), ParseError>)
      requires Valid() && current < argc <= argv.Length
      modifies this
      ensures Valid()
      ensures OneArgument(cfg, old(St()), argv[current], Following(argv[..argc], current))
              == (if r.Ok? then Ok(Step(r.value.0, r.value.1 == current + 1, St())) else Err(r.error))
      ensures r.Ok? ==> current <= r.value.1 <= current + 1 && r.value.1 < argc
    {
      match Classify(argv[current]) {
        case NotFlag =>
          if LooksLikeOption(argv[current]) {
            if !cfg.allowUnrecognised {
              return Err(OptionSyntax);
            }
          }
          var consumed := ConsumePositional(argv[current]);
          r := if consumed.Err? then Err(consumed.error) else Ok((RoleOf(consumed.value), current));
        case Short(names) =>
          var c := ParseShortGroup(argc, argv, current, names);
          r := if c.Err? then Err(c.error) else Ok((OptionRole, c.value));
        case Long(name, hasValue, value) =>
          if name !in cfg.options {
            if cfg.allowUnrecognised {
              return Ok((Kept, current));
            } else {
              return Err(OptionNotExists);
            }
          }
          var opt := cfg.options[name];
          if hasValue {
            var error := ParseOption(opt, value);
            r := if error.Some? then Err(error.value) else Ok((OptionRole, current));
          } else {
            var c := CheckedParseArg(argc, argv, current, opt);
            r := if c.Err? then Err(c.error) else Ok((OptionRole, c.value));
          }
      }
    }

    method ParseDefaults() returns (ok: bool)
      requires Valid()
      ensures ok <==> DefaultsAccepted(cfg, St())
      ensures ok <==>
        forall id :: 0 <= id < |counts| && counts[id] == 0 && id in cfg.options.Values && cfg.details[id].hasDefault ==>
          cfg.accepts(id, cfg.details[id].defaultValue)
    {
      var id := 0;
      while id < |cfg.details|
        invariant id <= |cfg.details|
        invariant forall k :: 0 <= k < id && counts[k] == 0 && k in cfg.options.Values && cfg.details[k].hasDefault ==>
          cfg.accepts(k, cfg.details[k].defaultValue)
      {
        if id in cfg.options.Values && counts[id] == 0 && cfg.details[id].hasDefault {
          if !cfg.accepts(id, cfg.details[id].defaultValue) {
            return false;
          }
        }
        id := id + 1;
      }
      return true;
    }

    /**
     * The whole parse. On success `argv[..n]` are the program name and the kept arguments in their order, and the
     * results are those of the specification; nothing unread is ever overwritten.
     */
    method Parse(argv: array<string>, argc: nat) returns (r: Result<nat, ParseError>)
      requires Valid() && St() == Initial(cfg) && 1 <= argc <= argv.Length
      modifies this, argv
      ensures Valid()
      ensures var spec := CxxoptsSpec.Parse(cfg, old(argv[..argc]));
              match r
              case Err(e) => spec == Err(e)
              case Ok(n) => spec.Ok? && spec.value.after == St() && n <= argc
                            && argv[..n] == KeptArgs(old(argv[..argc]), spec.value.roles)
    {
      ghost var args := argv[..argc];
      ghost var roles := [Program];
      hide Scan, OneArgument, Remaining, KeptArgs, DefaultsAccepted, Keyed, Compacting, CxxoptsSpec.ConsumePositional;
      var current, nextKeep := 1, 1;
      var consumeRemaining := false;
      CompactBegin(args);

      while current != argc
        invariant Valid() && 1 <= nextKeep <= current <= argc && |roles| == current
        invariant Compacting(args, argv[..argc], roles, nextKeep)
        invariant Scan(cfg, args, [Program], Initial(cfg)) == Scan(cfg, args, roles, St())
        invariant roles[current - 1] != Separator && !consumeRemaining
        decreases argc - current
      {
        CompactUnread(args, argv[..argc], roles, nextKeep);
        if argv[current] == "--" {
          consumeRemaining := true;
          ScanOnce(cfg, args, roles, St());
          CompactDrop(args, argv[..argc], roles, nextKeep, Separator);
          roles := roles + [Separator];
          current := current + 1;
          break;
        }
        ghost var before := St();
        var step := ParseArgument(argc, argv, current);
        ScanOnce(cfg, args, roles, before);
        if step.Err? {
          return Err(step.error);
        }
        var role := step.value.0;
        RolesOfSteps(cfg, before, args[current], Following(args, current));
        nextKeep, roles := Place(argv, argc, current, step.value.1, nextKeep, role, args, roles);
        current := step.value.1 + 1;
      }
      ScanEnd(cfg, args, roles, St());

      var defaultsOk := ParseDefaults();
      if !defaultsOk {
        return Err(IncorrectType);
      }

      if consumeRemaining {
        r := ParseRemaining(argv, argc, current, nextKeep, args, roles);
      } else {
        CompactDone(args, argv[..argc], roles, nextKeep);
        assert argv[..argc][..nextKeep] == argv[..nextKeep];
        r := Ok(nextKeep);
      }
    }

    // The part of a turn that moves a kept argument down and steps over a used value.
    method Place(argv: array<string>, argc: nat, at: nat, last: nat, nextKeep: nat, role: Role,
                 ghost args: seq<string>, ghost roles: seq<Role>)
      returns (keep: nat, ghost rolesAfter: seq<Role>)
      requires |args| == argc <= argv.Length && |roles| == at < argc && at <= last <= at + 1 && last < argc
      requires Compacting(args, argv[..argc], roles, nextKeep)
      requires role != Program && role != Separator && (last == at + 1 ==> role == OptionRole)
      modifies argv
      ensures rolesAfter == roles + (if last == at + 1 then [role, OptionValue] else [role])
      ensures nextKeep <= keep <= |rolesAfter| == last + 1 && rolesAfter[last] != Separator
      ensures Compacting(args, argv[..argc], rolesAfter, keep)
    {
      hide KeptArgs, Compacting;
      keep, rolesAfter := nextKeep, roles + [role];
      if role == Kept {
        CompactUnread(args, argv[..argc], roles, nextKeep);
        CompactKeep(args, argv[..argc], roles, nextKeep);
        ghost var now := argv[..argc];
        CompactDone(args, now, roles, nextKeep);
        argv[keep] := argv[at];
        assert argv[..argc] == now[nextKeep := now[at]];
        keep := keep + 1;
      } else {
        CompactDrop(args, argv[..argc], roles, nextKeep, role);
      }
      if last == at + 1 {
        CompactDrop(args, argv[..argc], rolesAfter, keep, OptionValue);
        rolesAfter := rolesAfter + [OptionValue];
        assert rolesAfter == roles + [role, OptionValue];
      }
      CompactDone(args, argv[..argc], rolesAfter, keep);
    }

    // The loops after `--`: positionals until one argument is not consumed, then the rest is kept.
    method ParseRemaining(argv: array<string>, argc: nat, start: nat, keepFrom: nat,
                          ghost args: seq<string>, ghost rolesBefore: seq<Role>)
      returns (r: Result<nat, ParseError>)
      requires Valid() && |args| == argc <= argv.Length && |rolesBefore| == start <= argc && keepFrom <= start
      requires Compacting(args, argv[..argc], rolesBefore, keepFrom)
      modifies this, argv
      ensures Valid()
      ensures var spec := Remaining(cfg, args, rolesBefore, old(St()));
              match r
              case Err(e) => spec == Err(e)
              case Ok(n) => spec.Ok? && spec.value.after == St() && n <= argc
                            && argv[..n] == KeptArgs(args, spec.value.roles)
    {
      ghost var roles := rolesBefore;
      hide Remaining, KeptArgs, Keyed, Compacting, CxxoptsSpec.ConsumePositional;
      var current, nextKeep := start, keepFrom;
      while current < argc
        invariant Valid() && nextKeep <= current <= argc && |roles| == current
        invariant Compacting(args, argv[..argc], roles, nextKeep)
        invariant Remaining(cfg, args, rolesBefore, old(St())) == Remaining(cfg, args, roles, St())
      {
        CompactUnread(args, argv[..argc], roles, nextKeep);
        RemainingOnce(cfg, args, roles, St());
        var consumed := ConsumePositional(argv[current]);
        if consumed.Err? {
          return Err(consumed.error);
        }
        if consumed.value.None? {
          break;
        }
        CompactDrop(args, argv[..argc], roles, nextKeep, Positional(consumed.value.value));
        roles := roles + [Positional(consumed.value.value)];
        current := current + 1;
      }
      RemainingEnd(cfg, args, roles, St());
      ghost var stopped, st := roles, St();
      assert Remaining(cfg, args, rolesBefore, old(St())) == Ok(Scanned(roles + AllKept(argc - current), St()));
      while current != argc
        invariant Valid() && St() == st
        invariant 0 <= nextKeep <= current <= argc && |stopped| <= |roles| == current
        invariant Compacting(args, argv[..argc], roles, nextKeep)
        invariant roles == stopped + AllKept(current - |stopped|)
      {
        nextKeep, roles := Place(argv, argc, current, current, nextKeep, Kept, args, roles);
        current := current + 1;
      }
      CompactDone(args, argv[..argc], roles, nextKeep);
      assert argv[..argc][..nextKeep] == argv[..nextKeep];
      r := Ok(nextKeep);
    }
  }

  /**
   * `Options::parse`: it fails exactly with the first error of the command line. Otherwise `argv[..n]` are the
   * program name and the kept arguments in their order, by the roles they had before anything was moved, and exactly
   * what the arguments mean was fed to the options.
   */
  method ParseOptions(cfg: Config, argv: array<string>, argc: nat)
    returns (result: ParseResult, r: Result<nat, ParseError>)
    requires cfg.Valid() && 1 <= argc <= argv.Length
    modifies argv
    ensures fresh(result) && result.cfg == cfg && result.Valid()
    ensures var args := old(argv[..argc]);
            match FirstError(cfg, args, 0)
            case Some(e) => r == Err(e)
            case None =>
              && r.Ok? && r.value <= argc && argv[..r.value] == KeptArgs(args, Roles(cfg, args, argc))
              && result.feeds == Fed(cfg, args, argc)
              && forall id :: 0 <= id < |cfg.details| ==> result.counts[id] == CountOf(result.feeds, id)
    ensures r.Ok? ==>
      forall id :: 0 <= id < |cfg.details| && result.counts[id] == 0 && id in cfg.options.Values
                   && cfg.details[id].hasDefault
        ==> cfg.accepts(id, cfg.details[id].defaultValue)
    ensures r.Ok? ==>
      && |result.arguments| == |result.feeds|
      && forall i :: 0 <= i < |result.feeds| ==>
           var f := result.feeds[i];
           f.option < |cfg.details| && result.arguments[i] == KeyValue(cfg.details[f.option].longName, f.value)
  {
    ParseMeaning(cfg, argv[..argc]);
    ghost var args := argv[..argc];
    hide CxxoptsSpec.Parse, FirstError, Fed, Roles, Settled, IsAccepted, CountOf, Sum, KeptArgs, Keyed, Initial;
    result := new ParseResult(cfg);
    r := result.Parse(argv, argc);
    if r.Ok? {
      forall id | 0 <= id < |cfg.details| && result.counts[id] == 0 && id in cfg.options.Values
                  && cfg.details[id].hasDefault
        ensures cfg.accepts(id, cfg.details[id].defaultValue)
      {
        CxxoptsReadings.UnfedDefaults(cfg, args, id);
      }
      AllKeyed(cfg, result.feeds);
    }
  }

  lemma AllKeyed(cfg: Config, feeds: seq<Feed>)
    requires forall f :: f in feeds ==> IsAccepted(cfg, f)
    ensures forall i :: 0 <= i < |feeds| ==>
              var f := feeds[i];
              f.option < |cfg.details| && Keyed(cfg, feeds)[i] == KeyValue(cfg.details[f.option].longName, f.value)
  {
    assert forall i :: 0 <= i < |feeds| ==> feeds[i] in feeds;
  }

  // ---- One turn of each loop, as the specification sees it ---------------------------------------------------

  lemma ScanEnd(cfg: Config, args: seq<string>, roles: seq<Role>, st: State)
    requires cfg.Valid() && StateFits(cfg, st) && |roles| <= |args|
    ensures |roles| == |args| ==> Scan(cfg, args, roles, st) == Ok(Scanned(roles, st))
  {}

  lemma RolesOfSteps(cfg: Config, st: State, arg: string, following: Option<string>)
    requires cfg.Valid() && StateFits(cfg, st)
    ensures var r := OneArgument(cfg, st, arg, following);
            r.Ok? ==> !r.value.role.Program? && !r.value.role.Separator? && !r.value.role.OptionValue?
                      && (r.value.usesFollowing ==> r.value.role.OptionRole?)
  {}

  lemma RemainingEnd(cfg: Config, args: seq<string>, roles: seq<Role>, st: State)
    requires cfg.Valid() && StateFits(cfg, st) && |roles| <= |args|
    ensures |roles| == |args| ==> Remaining(cfg, args, roles, st) == Ok(Scanned(roles + AllKept(|args| - |roles|), st))
  {
    assert roles + AllKept(0) == roles;
  }

  // ---- Compaction in place -------------------------------------------------------------------------------------

  // How far it has got: `now` starts with the kept arguments and still holds every unread one.
  ghost predicate Compacting(args: seq<string>, now: seq<string>, roles: seq<Role>, nextKeep: nat) {
    && |args| == |now| && nextKeep <= |roles| <= |args|
    && now[..nextKeep] == KeptArgs(args, roles)
    && now[|roles|..] == args[|roles|..]
  }

  lemma CompactBegin(args: seq<string>)
    requires |args| >= 1
    ensures Compacting(args, args, [Program], 1)
  {
    assert [Program][..0] == [];
    assert args[..1] == [args[0]];
  }

  lemma CompactUnread(args: seq<string>, now: seq<string>, roles: seq<Role>, nextKeep: nat)
    requires Compacting(args, now, roles, nextKeep) && |roles| < |args|
    ensures |now| == |args| && now[|roles|] == args[|roles|]
    ensures Following(now, |roles|) == Following(args, |roles|)
  {
    assert now[|roles|..][0] == args[|roles|..][0];
    if |roles| + 1 < |args| {
      assert now[|roles|..][1] == args[|roles|..][1];
    }
  }

  lemma CompactDrop(args: seq<string>, now: seq<string>, roles: seq<Role>, nextKeep: nat, role: Role)
    requires Compacting(args, now, roles, nextKeep) && |roles| < |args| && role != Program && role != Kept
    ensures Compacting(args, now, roles + [role], nextKeep)
  {
    assert (roles + [role])[..|roles|] == roles;
    assert now[|roles| + 1..] == now[|roles|..][1..] == args[|roles|..][1..] == args[|roles| + 1..];
  }

  lemma CompactKeep(args: seq<string>, now: seq<string>, roles: seq<Role>, nextKeep: nat)
    requires Compacting(args, now, roles, nextKeep) && |roles| < |args|
    ensures Compacting(args, now[nextKeep := now[|roles|]], roles + [Kept], nextKeep + 1)
  {
    var after := now[nextKeep := now[|roles|]];
    assert (roles + [Kept])[..|roles|] == roles;
    assert now[|roles|..][0] == args[|roles|..][0];
    assert after[..nextKeep + 1] == now[..nextKeep] + [args[|roles|]];
    assert after[|roles| + 1..] == now[|roles|..][1..] == args[|roles|..][1..] == args[|roles| + 1..];
  }

  lemma CompactDone(args: seq<string>, now: seq<string>, roles: seq<Role>, nextKeep: nat)
    requires Compacting(args, now, roles, nextKeep)
    ensures nextKeep <= |roles| <= |now| && now[..nextKeep] == KeptArgs(args, roles)
  {}
}
