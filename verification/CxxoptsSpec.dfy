/**
 * What `cxxopts::ParseResult::parse` means: which argument plays which role, and what each option is fed.
 *
 * Options are numbered; `options` maps every registered name, short or long, to its option. Values are kept as
 * the texts fed to an option, and `accepts` says which texts its value parser takes.
 */
module CxxoptsSpec {
  import opened Characters
  import opened Wrappers

  datatype Details = Details(longName: string, isContainer: bool, hasImplicit: bool, implicitValue: string,
                             hasDefault: bool, defaultValue: string)

  datatype Config = Config(options: map<string, nat>, details: seq<Details>, positional: seq<string>,
                           allowUnrecognised: bool, accepts: (nat, string) -> bool)
  {
    ghost predicate Valid() {
      forall name :: name in options ==> options[name] < |details|
    }
  }

  datatype ParseError = OptionSyntax | OptionNotExists | OptionRequiresArgument | MissingArgument | IncorrectType

  // One text given to one option.
  datatype Feed = Feed(option: nat, value: string)

  // The results so far: how often each option was given, the positional in turn, and all feeds in order.
  datatype State = State(counts: seq<nat>, next: nat, feeds: seq<Feed>)

  // ---- The shape of an argument ------------------------------------------------------------------------------

  datatype Token = NotFlag | Short(names: string) | Long(name: string, hasValue: bool, value: string)

  function NameEnd(s: string, i: nat): (e: nat)
    requires i <= |s|
    ensures i <= e <= |s|
    decreases |s| - i
  {
    if i < |s| && (IsAlnum(s[i]) || s[i] == '-' || s[i] == '_') then NameEnd(s, i + 1) else i
  }

  // The pattern --([[:alnum:]][-_[:alnum:]]+)(=(.*))?|-([[:alnum:]]+)
  function Classify(s: string): Token {
    if |s| > 2 && s[0] == '-' && s[1] == '-' && IsAlnum(s[2]) then
      var e := NameEnd(s, 3);
      if e == 3 then NotFlag
      else if e == |s| then Long(s[2..], false, "")
      else if s[e] == '=' && forall i :: e < i < |s| ==> s[i] != '\n' && s[i] != '\r' then
        Long(s[2..e], true, s[e + 1..])
      else NotFlag
    else if |s| > 1 && s[0] == '-' && forall i :: 1 <= i < |s| ==> IsAlnum(s[i]) then Short(s[1..])
    else NotFlag
  }

  predicate LooksLikeOption(s: string) {
    |s| > 1 && s[0] == '-'
  }

  // ---- Feeding options ------------------------------------------------------------------------------------------

  ghost predicate StateFits(cfg: Config, st: State) {
    |st.counts| == |cfg.details|
  }

  function ParseOption(cfg: Config, st: State, id: nat, arg: string): (r: Result<State, ParseError>)
    requires StateFits(cfg, st) && id < |cfg.details|
    ensures r.Ok? ==> StateFits(cfg, r.value)
  {
    if cfg.accepts(id, arg) then
      Ok(State(st.counts[id := st.counts[id] + 1], st.next, st.feeds + [Feed(id, arg)]))
    else
      Err(IncorrectType)
  }

  // The argument goes to the positional in turn; positionals that already have a scalar value are passed over.
  // Yields the index of the positional that took it, if one did.
  function ConsumePositional(cfg: Config, st: State, arg: string): (r: Result<(Option<nat>, State), ParseError>)
    requires cfg.Valid() && StateFits(cfg, st)
    ensures r.Ok? ==> StateFits(cfg, r.value.1)
    decreases |cfg.positional| - st.next
  {
    if st.next >= |cfg.positional| then Ok((None, st))
    else if cfg.positional[st.next] !in cfg.options then Err(OptionNotExists)
    else
      var id := cfg.options[cfg.positional[st.next]];
      if !cfg.details[id].isContainer && st.counts[id] > 0 then
        ConsumePositional(cfg, st.(next := st.next + 1), arg)
      else
        match ParseOption(cfg, st, id, arg)
        case Err(e) => Err(e)
        case Ok(after) =>
          Ok((Some(st.next), if cfg.details[id].isContainer then after else after.(next := st.next + 1)))
  }

  // An option without an attached value: its implicit value, or else the next argument. Yields whether the next
  // argument was used.
  function CheckedParseArg(cfg: Config, st: State, id: nat, following: Option<string>)
    : (r: Result<(bool, State), ParseError>)
    requires StateFits(cfg, st) && id < |cfg.details|
    ensures r.Ok? ==> StateFits(cfg, r.value.1) && (r.value.0 ==> following.Some?)
  {
    var d := cfg.details[id];
    if !d.hasImplicit && following.None? then Err(MissingArgument)
    else
      match ParseOption(cfg, st, id, if d.hasImplicit then d.implicitValue else following.value)
      case Err(e) => Err(e)
      case Ok(after) => Ok((!d.hasImplicit, after))
  }

  // The letters of a short option group, from letter `j` on.
  function ShortGroup(cfg: Config, st: State, names: string, j: nat, following: Option<string>)
    : (r: Result<(bool, State), ParseError>)
    requires cfg.Valid() && StateFits(cfg, st) && j <= |names|
    ensures r.Ok? ==> StateFits(cfg, r.value.1) && (r.value.0 ==> following.Some?)
    decreases |names| - j
  {
    if j == |names| then Ok((false, st))
    else if [names[j]] !in cfg.options then
      if cfg.allowUnrecognised then ShortGroup(cfg, st, names, j + 1, following) else Err(OptionNotExists)
    else
      var id := cfg.options[[names[j]]];
      if j + 1 == |names| then CheckedParseArg(cfg, st, id, following)
      else if !cfg.details[id].hasImplicit then Err(OptionRequiresArgument)
      else
        match ParseOption(cfg, st, id, cfg.details[id].implicitValue)
        case Err(e) => Err(e)
        case Ok(after) => ShortGroup(cfg, after, names, j + 1, following)
  }

  // ---- Roles -----------------------------------------------------------------------------------------------------

  datatype Role = Program | OptionRole | OptionValue | Positional(target: nat) | Kept | Separator

  datatype Step = Step(role: Role, usesFollowing: bool, after: State)

  function OneArgument(cfg: Config, st: State, arg: string, following: Option<string>): (r: Result<Step, ParseError>)
    requires cfg.Valid() && StateFits(cfg, st)
    ensures r.Ok? ==> StateFits(cfg, r.value.after) && (r.value.usesFollowing ==> following.Some?)
  {
    match Classify(arg)
    case NotFlag =>
      if LooksLikeOption(arg) && !cfg.allowUnrecognised then Err(OptionSyntax)
      else (
        match ConsumePositional(cfg, st, arg)
        case Err(e) => Err(e)
        case Ok((taken, after)) => Ok(Step(RoleOf(taken), false, after))
      )
    case Short(names) => (
      match ShortGroup(cfg, st, names, 0, following)
      case Err(e) => Err(e)
      case Ok((used, after)) => Ok(Step(OptionRole, used, after))
    )
    case Long(name, hasValue, value) =>
      if name !in cfg.options then
        if cfg.allowUnrecognised then Ok(Step(Kept, false, st)) else Err(OptionNotExists)
      else if hasValue then (
        match ParseOption(cfg, st, cfg.options[name], value)
        case Err(e) => Err(e)
        case Ok(after) => Ok(Step(OptionRole, false, after))
      ) else (
        match CheckedParseArg(cfg, st, cfg.options[name], following)
        case Err(e) => Err(e)
        case Ok((used, after)) => Ok(Step(OptionRole, used, after))
      )
  }

  function RoleOf(taken: Option<nat>): Role {
    if taken.Some? then Positional(taken.value) else Kept
  }

  function Following(args: seq<string>, i: nat): Option<string> {
    if i + 1 < |args| then Some(args[i + 1]) else None
  }

  datatype Scanned = Scanned(roles: seq<Role>, after: State)

  // The arguments up to `--`, or to the end.
  function Scan(cfg: Config, args: seq<string>, roles: seq<Role>, st: State): (r: Result<Scanned, ParseError>)
    requires cfg.Valid() && StateFits(cfg, st) && |roles| <= |args|
    ensures r.Ok? ==> StateFits(cfg, r.value.after) && |r.value.roles| <= |args|
    ensures r.Ok? && |r.value.roles| < |args| ==> r.value.roles != [] && r.value.roles[|r.value.roles| - 1] == Separator
    decreases |args| - |roles|
  {
    var i := |roles|;
    if i == |args| then Ok(Scanned(roles, st))
    else if args[i] == "--" then Ok(Scanned(roles + [Separator], st))
    else
      match OneArgument(cfg, st, args[i], Following(args, i))
      case Err(e) => Err(e)
      case Ok(Step(role, used, after)) =>
        Scan(cfg, args, roles + (if used then [role, OptionValue] else [role]), after)
  }

  function AllKept(n: nat): (r: seq<Role>)
    ensures |r| == n
  {
    if n == 0 then [] else AllKept(n - 1) + [Kept]
  }

  // The arguments after `--`: positionals until none takes one, then all the rest is kept.
  function Remaining(cfg: Config, args: seq<string>, roles: seq<Role>, st: State): (r: Result<Scanned, ParseError>)
    requires cfg.Valid() && StateFits(cfg, st) && |roles| <= |args|
    ensures r.Ok? ==> StateFits(cfg, r.value.after) && |r.value.roles| == |args|
    decreases |args| - |roles|
  {
    if |roles| == |args| then Ok(Scanned(roles, st))
    else
      match ConsumePositional(cfg, st, args[|roles|])
      case Err(e) => Err(e)
      case Ok((taken, after)) =>
        if taken.Some? then Remaining(cfg, args, roles + [Positional(taken.value)], after)
        else Ok(Scanned(roles + AllKept(|args| - |roles|), after))
  }

  // Every registered option that was not given and has a default gets it, and its parser takes it.
  predicate DefaultsAccepted(cfg: Config, st: State)
    requires StateFits(cfg, st)
  {
    forall id :: 0 <= id < |cfg.details| && st.counts[id] == 0 && id in cfg.options.Values
                 && cfg.details[id].hasDefault
      ==> cfg.accepts(id, cfg.details[id].defaultValue)
  }

  function Initial(cfg: Config): State {
    State(seq(|cfg.details|, _ => 0), 0, [])
  }

  function Parse(cfg: Config, args: seq<string>): (r: Result<Scanned, ParseError>)
    requires cfg.Valid() && |args| >= 1
    ensures r.Ok? ==> |r.value.roles| == |args| && StateFits(cfg, r.value.after)
  {
    match Scan(cfg, args, [Program], Initial(cfg))
    case Err(e) => Err(e)
    case Ok(s) =>
      if !DefaultsAccepted(cfg, s.after) then Err(IncorrectType)
      else if s.roles[|s.roles| - 1] == Separator then Remaining(cfg, args, s.roles, s.after)
      else Ok(s)
  }

  // The arguments that stay in `argv`, in order.
  function KeptArgs(args: seq<string>, roles: seq<Role>): seq<string>
    requires |roles| <= |args|
  {
    if roles == [] then []
    else
      var n := |roles| - 1;
      KeptArgs(args, roles[..n]) + (if roles[n] == Program || roles[n] == Kept then [args[n]] else [])
  }
}
