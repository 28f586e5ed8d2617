/**
 * What a command line means, without a pass over it: the role and the feeds of each argument, and the error, if any,
 * are read off the arguments before it. `CxxoptsTheorems` shows that the parser computes exactly this.
 */
module CxxoptsLaws {
  import opened Wrappers
  import opened CxxoptsSpec

  // ---- The feeds an argument is responsible for --------------------------------------------------------------

  // What an option without an attached value is fed.
  function ValueFor(cfg: Config, id: nat, following: Option<string>): string
    requires id < |cfg.details|
  {
    if cfg.details[id].hasImplicit then cfg.details[id].implicitValue
    else if following.Some? then following.value
    else ""
  }

  function GroupFeeds(cfg: Config, names: string, j: nat, following: Option<string>): seq<Feed>
    requires cfg.Valid() && j <= |names|
    decreases |names| - j
  {
    if j == |names| then []
    else
      (if [names[j]] in cfg.options then
         var id := cfg.options[[names[j]]];
         [Feed(id, ValueFor(cfg, id, following))]
       else [])
      + GroupFeeds(cfg, names, j + 1, following)
  }

  // The feeds that argument `i` is responsible for, given its role.
  function FeedsOf(cfg: Config, args: seq<string>, i: nat, role: Role): seq<Feed>
    requires cfg.Valid() && i < |args|
  {
    match role
    case OptionRole => (
      match Classify(args[i])
      case NotFlag => []
      case Short(names) => GroupFeeds(cfg, names, 0, Following(args, i))
      case Long(name, hasValue, value) =>
        if name !in cfg.options then []
        else
          var id := cfg.options[name];
          [Feed(id, if hasValue then value else ValueFor(cfg, id, Following(args, i)))]
    )
    case Positional(k) => if IsTarget(cfg, k) then [Feed(TargetOf(cfg, k), args[i])] else []
    case _ => []
  }

  function AllFeeds(cfg: Config, args: seq<string>, roles: seq<Role>): seq<Feed>
    requires cfg.Valid() && |roles| <= |args|
  {
    if roles == [] then []
    else
      var n := |roles| - 1;
      AllFeeds(cfg, args, roles[..n]) + FeedsOf(cfg, args, n, roles[n])
  }

  function CountOf(feeds: seq<Feed>, id: nat): nat {
    if feeds == [] then 0
    else CountOf(feeds[..|feeds| - 1], id) + (if feeds[|feeds| - 1].option == id then 1 else 0)
  }

  function Sum(counts: seq<nat>): nat {
    if counts == [] then 0 else Sum(counts[..|counts| - 1]) + counts[|counts| - 1]
  }

  // ---- Positionals ---------------------------------------------------------------------------------------------

  predicate IsTarget(cfg: Config, k: nat)
    requires cfg.Valid()
  {
    k < |cfg.positional| && cfg.positional[k] in cfg.options
  }

  function TargetOf(cfg: Config, k: nat): nat
    requires cfg.Valid() && IsTarget(cfg, k)
  {
    cfg.options[cfg.positional[k]]
  }

  predicate IsContainer(cfg: Config, k: nat)
    requires cfg.Valid() && IsTarget(cfg, k)
  {
    cfg.details[TargetOf(cfg, k)].isContainer
  }

  // A scalar positional that has been given a value, one way or another.
  predicate IsFull(cfg: Config, feeds: seq<Feed>, k: nat)
    requires cfg.Valid()
  {
    IsTarget(cfg, k) && !IsContainer(cfg, k) && CountOf(feeds, TargetOf(cfg, k)) > 0
  }

  // The first positional from `k` on that is not full.
  function FirstFree(cfg: Config, feeds: seq<Feed>, k: nat): (r: nat)
    requires cfg.Valid() && k <= |cfg.positional|
    ensures k <= r <= |cfg.positional|
    ensures forall j :: k <= j < r ==> IsFull(cfg, feeds, j)
    ensures r < |cfg.positional| ==> !IsFull(cfg, feeds, r)
    decreases |cfg.positional| - k
  {
    if k < |cfg.positional| && IsFull(cfg, feeds, k) then FirstFree(cfg, feeds, k + 1) else k
  }

  // ---- Roles -----------------------------------------------------------------------------------------------------

  // Not an option, nor taken for one.
  predicate IsPlain(cfg: Config, arg: string) {
    arg != "--" && Classify(arg).NotFlag? && (LooksLikeOption(arg) ==> cfg.allowUnrecognised)
  }

  predicate IsUnknownLong(cfg: Config, arg: string) {
    cfg.allowUnrecognised && Classify(arg).Long? && Classify(arg).name !in cfg.options
  }

  // The option, or the last letter of the group, has neither an attached nor an implicit value.
  predicate NeedsValue(cfg: Config, arg: string)
    requires cfg.Valid()
  {
    match Classify(arg)
    case NotFlag => false
    case Short(names) => GroupNeedsValue(cfg, names)
    case Long(name, hasValue, _) => !hasValue && name in cfg.options && !cfg.details[cfg.options[name]].hasImplicit
  }

  predicate GroupNeedsValue(cfg: Config, names: string)
    requires cfg.Valid()
  {
    names != [] && [names[|names| - 1]] in cfg.options && !cfg.details[cfg.options[[names[|names| - 1]]]].hasImplicit
  }

  // No option is waiting for its value.
  predicate Settled(cfg: Config, args: seq<string>, roles: seq<Role>)
    requires cfg.Valid() && |roles| <= |args|
  {
    roles != [] && roles[|roles| - 1] == OptionRole ==> !NeedsValue(cfg, args[|roles| - 1])
  }

  // The role of the argument after those with the roles `before`.
  function NextRole(cfg: Config, args: seq<string>, before: seq<Role>): Role
    requires cfg.Valid() && |before| < |args|
  {
    var arg := args[|before|];
    if before == [] then Program
    else if !Settled(cfg, args, before) then OptionValue
    else if Separator in before || IsPlain(cfg, arg) then
      var k := FirstFree(cfg, AllFeeds(cfg, args, before), 0);
      if k < |cfg.positional| then Positional(k) else Kept
    else if arg == "--" then Separator
    else if IsUnknownLong(cfg, arg) then Kept
    else OptionRole
  }

  // The roles of the first `n` arguments.
  function Roles(cfg: Config, args: seq<string>, n: nat): (r: seq<Role>)
    requires cfg.Valid() && n <= |args|
    ensures |r| == n
  {
    if n == 0 then [] else Roles(cfg, args, n - 1) + [NextRole(cfg, args, Roles(cfg, args, n - 1))]
  }

  // What the first `n` arguments have fed.
  function Fed(cfg: Config, args: seq<string>, n: nat): seq<Feed>
    requires cfg.Valid() && n <= |args|
  {
    AllFeeds(cfg, args, Roles(cfg, args, n))
  }

  // ---- Errors -----------------------------------------------------------------------------------------------------

  function Refused(cfg: Config, id: nat, text: string): Option<ParseError> {
    if cfg.accepts(id, text) then None else Some(IncorrectType)
  }

  function ValueError(cfg: Config, id: nat, following: Option<string>): Option<ParseError>
    requires id < |cfg.details|
  {
    if !cfg.details[id].hasImplicit && following.None? then Some(MissingArgument)
    else Refused(cfg, id, ValueFor(cfg, id, following))
  }

  // Only the last letter of a group may need a value.
  function LetterError(cfg: Config, names: string, j: nat, following: Option<string>): Option<ParseError>
    requires cfg.Valid() && j < |names|
  {
    if [names[j]] !in cfg.options then
      if cfg.allowUnrecognised then None else Some(OptionNotExists)
    else
      var id := cfg.options[[names[j]]];
      if j + 1 < |names| && !cfg.details[id].hasImplicit then Some(OptionRequiresArgument)
      else ValueError(cfg, id, following)
  }

  // The error of the first bad letter from `j` on.
  function GroupError(cfg: Config, names: string, j: nat, following: Option<string>): Option<ParseError>
    requires cfg.Valid() && j <= |names|
    decreases |names| - j
  {
    if j == |names| then None
    else if LetterError(cfg, names, j, following).Some? then LetterError(cfg, names, j, following)
    else GroupError(cfg, names, j + 1, following)
  }

  function OptionError(cfg: Config, arg: string, following: Option<string>): Option<ParseError>
    requires cfg.Valid()
  {
    match Classify(arg)
    case NotFlag => Some(OptionSyntax)
    case Short(names) => GroupError(cfg, names, 0, following)
    case Long(name, hasValue, value) =>
      if name !in cfg.options then Some(OptionNotExists)
      else if hasValue then Refused(cfg, cfg.options[name], value)
      else ValueError(cfg, cfg.options[name], following)
  }

  function NextError(cfg: Config, args: seq<string>, before: seq<Role>): Option<ParseError>
    requires cfg.Valid() && |before| < |args|
  {
    match NextRole(cfg, args, before)
    case OptionRole => OptionError(cfg, args[|before|], Following(args, |before|))
    case Positional(k) =>
      if IsTarget(cfg, k) then Refused(cfg, TargetOf(cfg, k), args[|before|]) else Some(OptionNotExists)
    case _ => None
  }

  // Some option that was given nothing has a default its own parser refuses.
  predicate DefaultRefused(cfg: Config, feeds: seq<Feed>) {
    exists id :: 0 <= id < |cfg.details| && CountOf(feeds, id) == 0 && id in cfg.options.Values
                 && cfg.details[id].hasDefault && !cfg.accepts(id, cfg.details[id].defaultValue)
  }

  // The first error from argument `n` on. Defaults are due at the separator, or else at the end.
  function FirstError(cfg: Config, args: seq<string>, n: nat): Option<ParseError>
    requires cfg.Valid() && n <= |args|
    decreases |args| - n
  {
    var before := Roles(cfg, args, n);
    if n == |args| then
      if Separator !in before && DefaultRefused(cfg, Fed(cfg, args, n)) then Some(IncorrectType) else None
    else if NextError(cfg, args, before).Some? then NextError(cfg, args, before)
    else if NextRole(cfg, args, before) == Separator && DefaultRefused(cfg, Fed(cfg, args, n)) then Some(IncorrectType)
    else FirstError(cfg, args, n + 1)
  }

  // ---- The invariant of the pass ---------------------------------------------------------------------------------

  predicate IsAccepted(cfg: Config, f: Feed) {
    f.option < |cfg.details| && cfg.accepts(f.option, f.value)
  }

  // Counts and feeds agree, and every text fed was accepted.
  ghost predicate Counted(cfg: Config, st: State) {
    && |st.counts| == |cfg.details|
    && (forall f :: f in st.feeds ==> IsAccepted(cfg, f))
    && (forall id :: 0 <= id < |cfg.details| ==> st.counts[id] == CountOf(st.feeds, id))
    && Sum(st.counts) == |st.feeds|
  }

  // The cursor has only passed positionals that are full.
  ghost predicate CursorFits(cfg: Config, st: State)
    requires cfg.Valid()
  {
    st.next <= |cfg.positional| && forall j :: 0 <= j < st.next ==> IsFull(cfg, st.feeds, j)
  }

  // After `n` arguments the parser's state is what they mean.
  ghost predicate Inv(cfg: Config, args: seq<string>, n: nat, st: State) {
    && cfg.Valid() && n <= |args| && Counted(cfg, st) && CursorFits(cfg, st)
    && st.feeds == Fed(cfg, args, n)
  }

  // ---- Feeding keeps the counts --------------------------------------------------------------------------------

  lemma {:induction false} SumAfterUse(counts: seq<nat>, id: nat)
    requires id < |counts|
    ensures Sum(counts[id := counts[id] + 1]) == Sum(counts) + 1
    decreases |counts|
  {
    var n := |counts| - 1;
    var after := counts[id := counts[id] + 1];
    if id < n {
      SumAfterUse(counts[..n], id);
      assert after[..n] == counts[..n][id := counts[id] + 1];
    } else {
      assert after[..n] == counts[..n];
    }
  }

  lemma {:induction false} SumOfZeros(n: nat)
    ensures Sum(seq(n, _ => 0)) == 0
  {
    if n > 0 {
      assert seq<nat>(n, _ => 0)[..n - 1] == seq<nat>(n - 1, _ => 0);
      SumOfZeros(n - 1);
    }
  }

  lemma {:induction false} CountOfAppend(feeds: seq<Feed>, more: seq<Feed>, id: nat)
    ensures CountOf(feeds + more, id) == CountOf(feeds, id) + CountOf(more, id)
    decreases |more|
  {
    if more == [] {
      assert feeds + more == feeds;
    } else {
      var m := |more| - 1;
      CountOfAppend(feeds, more[..m], id);
      assert (feeds + more)[..|feeds| + m] == feeds + more[..m];
    }
  }

  // `after` is `st` with the texts `fs` fed, nothing else.
  ghost predicate Gained(cfg: Config, st: State, after: State, fs: seq<Feed>) {
    Counted(cfg, after) && after.feeds == st.feeds + fs
  }

  // An outcome is the error predicted, or else these texts were fed.
  ghost predicate Outcome(cfg: Config, st: State, r: Result<State, ParseError>, e: Option<ParseError>, fs: seq<Feed>) {
    match e
    case Some(error) => r == Err(error)
    case None => r.Ok? && Gained(cfg, st, r.value, fs) && r.value.next == st.next
  }

  function State1(r: Result<(bool, State), ParseError>): Result<State, ParseError> {
    match r
    case Ok((_, st)) => Ok(st)
    case Err(e) => Err(e)
  }

  lemma ParseOptionOutcome(cfg: Config, st: State, id: nat, arg: string)
    requires Counted(cfg, st) && id < |cfg.details|
    ensures Outcome(cfg, st, ParseOption(cfg, st, id, arg), Refused(cfg, id, arg), [Feed(id, arg)])
  {
    if cfg.accepts(id, arg) {
      var after := ParseOption(cfg, st, id, arg).value;
      SumAfterUse(st.counts, id);
      assert IsAccepted(cfg, Feed(id, arg));
      forall k | 0 <= k < |cfg.details|
        ensures after.counts[k] == CountOf(after.feeds, k)
      {
        assert (st.feeds + [Feed(id, arg)])[..|st.feeds|] == st.feeds;
      }
    }
  }

  lemma CheckedParseArgOutcome(cfg: Config, st: State, id: nat, following: Option<string>)
    requires Counted(cfg, st) && id < |cfg.details|
    ensures var r := CheckedParseArg(cfg, st, id, following);
            && Outcome(cfg, st, State1(r), ValueError(cfg, id, following), [Feed(id, ValueFor(cfg, id, following))])
            && (r.Ok? ==> r.value.0 == !cfg.details[id].hasImplicit)
  {
    ParseOptionOutcome(cfg, st, id, ValueFor(cfg, id, following));
    hide Counted, Gained;
  }

  lemma GainedInTwo(cfg: Config, st: State, mid: State, after: State, fs: seq<Feed>, gs: seq<Feed>)
    requires Gained(cfg, st, mid, fs) && Gained(cfg, mid, after, gs)
    ensures Gained(cfg, st, after, fs + gs)
  {
    hide Counted;
    assert st.feeds + fs + gs == st.feeds + (fs + gs);
  }

  ghost predicate GroupOutcome(cfg: Config, st: State, names: string, j: nat, following: Option<string>)
    requires cfg.Valid() && StateFits(cfg, st) && j <= |names|
  {
    var r := ShortGroup(cfg, st, names, j, following);
    && Outcome(cfg, st, State1(r), GroupError(cfg, names, j, following), GroupFeeds(cfg, names, j, following))
    && (r.Ok? ==> (r.value.0 <==> j < |names| && GroupNeedsValue(cfg, names)))
  }

  lemma LastLetterOutcome(cfg: Config, st: State, names: string, j: nat, following: Option<string>)
    requires cfg.Valid() && Counted(cfg, st) && |names| - 1 <= j <= |names|
    ensures StateFits(cfg, st) && GroupOutcome(cfg, st, names, j, following)
  {
    var n := |names|;
    assert st.feeds + [] == st.feeds;
    assert ShortGroup(cfg, st, names, n, following) == Ok((false, st)) && GroupFeeds(cfg, names, n, following) == [];
    assert GroupError(cfg, names, n, following) == None;
    if j < n && [names[j]] in cfg.options {
      var id := cfg.options[[names[j]]];
      CheckedParseArgOutcome(cfg, st, id, following);
      assert GroupFeeds(cfg, names, j, following) == [Feed(id, ValueFor(cfg, id, following))] + [];
    }
    hide Counted;
  }

  lemma {:induction false} ShortGroupOutcome(cfg: Config, st: State, names: string, j: nat, following: Option<string>)
    requires cfg.Valid() && Counted(cfg, st) && j <= |names|
    ensures StateFits(cfg, st) && GroupOutcome(cfg, st, names, j, following)
    decreases |names| - j
  {
    assert StateFits(cfg, st);
    if j + 1 >= |names| {
      LastLetterOutcome(cfg, st, names, j, following);
    } else if [names[j]] !in cfg.options {
      ShortGroupOutcome(cfg, st, names, j + 1, following);
      assert [] + GroupFeeds(cfg, names, j + 1, following) == GroupFeeds(cfg, names, j + 1, following);
      hide Counted, Gained, GroupNeedsValue;
    } else {
      var id := cfg.options[[names[j]]];
      var text := cfg.details[id].implicitValue;
      ParseOptionOutcome(cfg, st, id, text);
      hide Counted, GroupNeedsValue;
      if cfg.details[id].hasImplicit && cfg.accepts(id, text) {
        var after := ParseOption(cfg, st, id, text).value;
        hide ParseOption;
        ShortGroupOutcome(cfg, after, names, j + 1, following);
        var r := ShortGroup(cfg, after, names, j + 1, following);
        if r.Ok? {
          GainedInTwo(cfg, st, after, r.value.1, [Feed(id, text)], GroupFeeds(cfg, names, j + 1, following));
        }
        hide Gained;
      }
    }
  }

  // ---- The cursor finds the first free positional ----------------------------------------------------------------

  lemma FullStaysFull(cfg: Config, feeds: seq<Feed>, more: seq<Feed>, k: nat)
    requires cfg.Valid() && IsFull(cfg, feeds, k)
    ensures IsFull(cfg, feeds + more, k)
  {
    CountOfAppend(feeds, more, TargetOf(cfg, k));
  }

  lemma CursorStaysFit(cfg: Config, st: State, after: State, fs: seq<Feed>)
    requires cfg.Valid() && CursorFits(cfg, st) && after.feeds == st.feeds + fs && after.next == st.next
    ensures CursorFits(cfg, after)
  {
    hide IsFull;
    forall j | 0 <= j < st.next
      ensures IsFull(cfg, after.feeds, j)
    {
      FullStaysFull(cfg, st.feeds, fs, j);
    }
  }

  lemma FirstFreeIs(cfg: Config, feeds: seq<Feed>, k: nat)
    requires cfg.Valid() && k <= |cfg.positional| && (k < |cfg.positional| ==> !IsFull(cfg, feeds, k))
    requires forall j :: 0 <= j < k ==> IsFull(cfg, feeds, j)
    ensures FirstFree(cfg, feeds, 0) == k
  {
    hide IsFull, FirstFree;
  }

  lemma CountedIgnoresCursor(cfg: Config, st: State, next: nat)
    requires Counted(cfg, st)
    ensures Counted(cfg, st.(next := next))
  {}

  // Where the argument goes: to the first free positional, wherever the cursor stood.
  lemma {:induction false} ConsumePositionalOutcome(cfg: Config, st: State, arg: string)
    requires cfg.Valid() && Counted(cfg, st) && CursorFits(cfg, st)
    ensures var r, k := ConsumePositional(cfg, st, arg), FirstFree(cfg, st.feeds, 0);
            if k == |cfg.positional| then r == Ok((None, st.(next := k))) && CursorFits(cfg, r.value.1)
            else if !IsTarget(cfg, k) then r == Err(OptionNotExists)
            else if !cfg.accepts(TargetOf(cfg, k), arg) then r == Err(IncorrectType)
            else && r.Ok? && r.value.0 == Some(k) && CursorFits(cfg, r.value.1)
                 && Gained(cfg, st, r.value.1, [Feed(TargetOf(cfg, k), arg)])
    decreases |cfg.positional| - st.next
  {
    hide Counted;
    if st.next < |cfg.positional| && IsFull(cfg, st.feeds, st.next) {
      assert st.counts[TargetOf(cfg, st.next)] > 0 by {
        CountsAt(cfg, st, TargetOf(cfg, st.next));
      }
      CountedIgnoresCursor(cfg, st, st.next + 1);
      ConsumePositionalOutcome(cfg, st.(next := st.next + 1), arg);
    } else {
      FirstFreeIs(cfg, st.feeds, st.next);
      if IsTarget(cfg, st.next) {
        TakePositional(cfg, st, arg);
      }
    }
  }

  lemma CountsAt(cfg: Config, st: State, id: nat)
    requires Counted(cfg, st) && id < |cfg.details|
    ensures |st.counts| == |cfg.details| && st.counts[id] == CountOf(st.feeds, id)
  {}

  lemma TakePositional(cfg: Config, st: State, arg: string)
    requires cfg.Valid() && Counted(cfg, st) && CursorFits(cfg, st)
    requires IsTarget(cfg, st.next) && !IsFull(cfg, st.feeds, st.next)
    ensures var r, id := ConsumePositional(cfg, st, arg), TargetOf(cfg, st.next);
            if !cfg.accepts(id, arg) then r == Err(IncorrectType)
            else && r.Ok? && r.value.0 == Some(st.next) && CursorFits(cfg, r.value.1)
                 && Gained(cfg, st, r.value.1, [Feed(id, arg)])
  {
    var id := TargetOf(cfg, st.next);
    CountsAt(cfg, st, id);
    ParseOptionOutcome(cfg, st, id, arg);
    hide Counted;
    if cfg.accepts(id, arg) {
      var after := ParseOption(cfg, st, id, arg).value;
      CursorStaysFit(cfg, st, after, [Feed(id, arg)]);
      assert (st.feeds + [Feed(id, arg)])[..|st.feeds|] == st.feeds;
      assert !IsContainer(cfg, st.next) ==> IsFull(cfg, after.feeds, st.next);
    }
  }

  // ---- One turn --------------------------------------------------------------------------------------------------

  lemma RolesGrow(cfg: Config, args: seq<string>, n: nat)
    requires cfg.Valid() && n < |args|
    ensures var before := Roles(cfg, args, n);
            && Roles(cfg, args, n + 1) == before + [NextRole(cfg, args, before)]
            && Fed(cfg, args, n + 1) == Fed(cfg, args, n) + FeedsOf(cfg, args, n, NextRole(cfg, args, before))
  {
    var before := Roles(cfg, args, n);
    assert (before + [NextRole(cfg, args, before)])[..n] == before;
  }

  lemma SettledAfter(cfg: Config, args: seq<string>, roles: seq<Role>, role: Role)
    requires cfg.Valid() && |roles| < |args|
    ensures Settled(cfg, args, roles + [role]) <==> !(role == OptionRole && NeedsValue(cfg, args[|roles|]))
  {}

  // What an argument does to the state, whichever branch of the parser handles it.
  lemma InvAfter(cfg: Config, args: seq<string>, n: nat, st: State, after: State)
    requires Inv(cfg, args, n, st) && n < |args|
    requires Gained(cfg, st, after, FeedsOf(cfg, args, n, NextRole(cfg, args, Roles(cfg, args, n))))
    requires CursorFits(cfg, after)
    ensures Inv(cfg, args, n + 1, after)
  {
    hide Counted, CursorFits, FeedsOf, Fed;
    RolesGrow(cfg, args, n);
  }

  // An argument that feeds nothing.
  lemma InvAfterNothing(cfg: Config, args: seq<string>, n: nat, st: State)
    requires Inv(cfg, args, n, st) && n < |args|
    requires FeedsOf(cfg, args, n, NextRole(cfg, args, Roles(cfg, args, n))) == []
    ensures Inv(cfg, args, n + 1, st)
  {
    hide Counted, CursorFits, FeedsOf, Fed, NextRole, Roles;
    assert st.feeds + [] == st.feeds;
    InvAfter(cfg, args, n, st, st);
  }

  // Ready for a turn of the main loop.
  ghost predicate MayTurn(cfg: Config, args: seq<string>, n: nat, st: State) {
    && Inv(cfg, args, n, st) && 0 < n < |args| && args[n] != "--"
    && Separator !in Roles(cfg, args, n) && Settled(cfg, args, Roles(cfg, args, n))
  }

  // The turn does what the argument means.
  ghost predicate Turned(cfg: Config, args: seq<string>, n: nat, st: State, r: Result<Step, ParseError>)
    requires cfg.Valid() && n < |args|
  {
    var role := NextRole(cfg, args, Roles(cfg, args, n));
    match NextError(cfg, args, Roles(cfg, args, n))
    case Some(e) => r == Err(e)
    case None =>
      && r.Ok? && r.value.role == role && role != Separator && Inv(cfg, args, n + 1, r.value.after)
      && (r.value.usesFollowing <==> role == OptionRole && NeedsValue(cfg, args[n]))
      && (r.value.usesFollowing ==> n + 1 < |args|)
  }

  // An argument offered to the positionals, before or after the separator.
  lemma OfferedTurn(cfg: Config, args: seq<string>, n: nat, st: State)
    requires Inv(cfg, args, n, st) && 0 < n < |args| && Settled(cfg, args, Roles(cfg, args, n))
    requires Separator in Roles(cfg, args, n) || IsPlain(cfg, args[n])
    ensures var r, k := ConsumePositional(cfg, st, args[n]), FirstFree(cfg, st.feeds, 0);
            && NextRole(cfg, args, Roles(cfg, args, n)) == (if k < |cfg.positional| then Positional(k) else Kept)
            && match NextError(cfg, args, Roles(cfg, args, n))
               case Some(e) => r == Err(e)
               case None => r.Ok? && Inv(cfg, args, n + 1, r.value.1)
                            && r.value.0 == if k < |cfg.positional| then Some(k) else None
  {
    var k := FirstFree(cfg, st.feeds, 0);
    ConsumePositionalOutcome(cfg, st, args[n]);
    CountedIgnoresCursor(cfg, st, k);
    hide Counted, CursorFits, IsPlain, Roles, ConsumePositional, Settled, FirstFree;
    assert NextRole(cfg, args, Roles(cfg, args, n)) == if k < |cfg.positional| then Positional(k) else Kept;
    hide NextRole;
    var r := ConsumePositional(cfg, st, args[n]);
    if r.Ok? {
      assert st.feeds + [] == st.feeds;
      InvAfter(cfg, args, n, st, r.value.1);
    }
  }

  lemma PlainTurn(cfg: Config, args: seq<string>, n: nat, st: State)
    requires MayTurn(cfg, args, n, st) && IsPlain(cfg, args[n])
    ensures Turned(cfg, args, n, st, OneArgument(cfg, st, args[n], Following(args, n)))
  {
    OfferedTurn(cfg, args, n, st);
    assert LooksLikeOption(args[n]) ==> cfg.allowUnrecognised;
    hide Inv, Counted, CursorFits, Roles, NextRole, NextError, ConsumePositional, FirstFree, LooksLikeOption, Settled,
      NeedsValue;
  }

  lemma UnknownTurn(cfg: Config, args: seq<string>, n: nat, st: State)
    requires MayTurn(cfg, args, n, st) && IsUnknownLong(cfg, args[n])
    ensures Turned(cfg, args, n, st, OneArgument(cfg, st, args[n], Following(args, n)))
  {
    assert NextRole(cfg, args, Roles(cfg, args, n)) == Kept;
    hide Inv, Classify, Roles, NextRole;
    InvAfterNothing(cfg, args, n, st);
  }

  // An argument that is taken for an option.
  lemma OptionTurn(cfg: Config, args: seq<string>, n: nat, st: State)
    requires MayTurn(cfg, args, n, st) && !IsPlain(cfg, args[n]) && !IsUnknownLong(cfg, args[n])
    ensures Turned(cfg, args, n, st, OneArgument(cfg, st, args[n], Following(args, n)))
  {
    var arg, following := args[n], Following(args, n);
    assert NextRole(cfg, args, Roles(cfg, args, n)) == OptionRole;
    OptionOutcome(cfg, args, n, st);
    hide Roles, NextRole, Counted, CursorFits, Classify, OneArgument, OptionError, NeedsValue, FeedsOf, IsPlain,
      IsUnknownLong;
    if OptionError(cfg, arg, following).None? {
      var after := OneArgument(cfg, st, arg, following).value.after;
      CursorStaysFit(cfg, st, after, FeedsOf(cfg, args, n, OptionRole));
      InvAfter(cfg, args, n, st, after);
    }
  }

  lemma OptionOutcome(cfg: Config, args: seq<string>, n: nat, st: State)
    requires cfg.Valid() && Counted(cfg, st) && n < |args|
    requires args[n] != "--" && !IsPlain(cfg, args[n]) && !IsUnknownLong(cfg, args[n])
    ensures var r := OneArgument(cfg, st, args[n], Following(args, n));
            match OptionError(cfg, args[n], Following(args, n))
            case Some(e) => r == Err(e)
            case None =>
              && r.Ok? && r.value.role == OptionRole && r.value.after.next == st.next
              && Gained(cfg, st, r.value.after, FeedsOf(cfg, args, n, OptionRole))
              && (r.value.usesFollowing <==> NeedsValue(cfg, args[n]))
  {
    var following := Following(args, n);
    match Classify(args[n]) {
      case NotFlag =>
      case Short(names) =>
        assert names != [];
        ShortGroupOutcome(cfg, st, names, 0, following);
        hide Counted, Classify, ShortGroup, GroupFeeds, GroupError, GroupNeedsValue;
      case Long(name, hasValue, value) =>
        if name in cfg.options {
          ParseOptionOutcome(cfg, st, cfg.options[name], value);
          CheckedParseArgOutcome(cfg, st, cfg.options[name], following);
        }
        hide Counted, Classify, ParseOption, CheckedParseArg;
    }
  }

  lemma OneArgumentTurns(cfg: Config, args: seq<string>, n: nat, st: State)
    requires MayTurn(cfg, args, n, st)
    ensures Turned(cfg, args, n, st, OneArgument(cfg, st, args[n], Following(args, n)))
  {
    hide Turned, OneArgument, IsPlain, IsUnknownLong;
    if IsPlain(cfg, args[n]) {
      PlainTurn(cfg, args, n, st);
    } else if IsUnknownLong(cfg, args[n]) {
      UnknownTurn(cfg, args, n, st);
    } else {
      OptionTurn(cfg, args, n, st);
    }
  }
}
