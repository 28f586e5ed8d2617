/** `ParseResult::parse` computes what the command line means, and what follows for whoever reads its result. */
module CxxoptsTheorems {
  import opened Wrappers
  import opened CxxoptsSpec
  import opened CxxoptsLaws

  // ---- The pass over the arguments ---------------------------------------------------------------------------

  lemma NothingToDo(cfg: Config, args: seq<string>, n: nat, role: Role)
    requires cfg.Valid() && n < |args| && NextRole(cfg, args, Roles(cfg, args, n)) == role
    requires role.Program? || role.OptionValue? || role.Separator? || role.Kept?
    ensures FeedsOf(cfg, args, n, role) == [] && NextError(cfg, args, Roles(cfg, args, n)).None?
    ensures Fed(cfg, args, n + 1) == Fed(cfg, args, n) && Roles(cfg, args, n + 1) == Roles(cfg, args, n) + [role]
  {
    RolesGrow(cfg, args, n);
    hide NextRole, Roles, Fed;
    assert Fed(cfg, args, n) + [] == Fed(cfg, args, n);
  }

  // One unrolling of `FirstError`.
  lemma ErrorFrom(cfg: Config, args: seq<string>, n: nat)
    requires cfg.Valid() && n < |args|
    ensures var before := Roles(cfg, args, n);
            && (NextError(cfg, args, before).Some? ==> FirstError(cfg, args, n) == NextError(cfg, args, before))
            && (NextError(cfg, args, before).None? && NextRole(cfg, args, before) != Separator ==>
                  FirstError(cfg, args, n) == FirstError(cfg, args, n + 1))
            && (NextRole(cfg, args, before) == Separator ==>
                  FirstError(cfg, args, n) ==
                    if DefaultRefused(cfg, Fed(cfg, args, n)) then Some(IncorrectType)
                    else FirstError(cfg, args, n + 1))
  {
    hide Roles, DefaultRefused, Fed, NextRole;
  }

  // What the main loop leaves after it got to argument `m`, at the separator or at the end.
  ghost predicate Scans(cfg: Config, args: seq<string>, n: nat, s: Scanned, m: nat)
    requires cfg.Valid() && n <= |args|
  {
    && n <= m <= |args| && 0 < m && s.roles == Roles(cfg, args, m) && Inv(cfg, args, m, s.after)
    && Settled(cfg, args, s.roles)
    && (Separator in s.roles <==> s.roles[m - 1] == Separator)
    && FirstError(cfg, args, n) ==
       (if DefaultRefused(cfg, s.after.feeds) then Some(IncorrectType)
        else if s.roles[m - 1] == Separator then FirstError(cfg, args, m)
        else None)
  }

  lemma ScanAtSeparator(cfg: Config, args: seq<string>, n: nat, st: State)
    requires Inv(cfg, args, n, st) && 0 < n < |args| && args[n] == "--"
    requires Separator !in Roles(cfg, args, n) && Settled(cfg, args, Roles(cfg, args, n))
    ensures Scans(cfg, args, n, Scanned(Roles(cfg, args, n) + [Separator], st), n + 1)
  {
    var before := Roles(cfg, args, n);
    assert NextRole(cfg, args, before) == Separator;
    NothingToDo(cfg, args, n, Separator);
    InvAfterNothing(cfg, args, n, st);
    SettledAfter(cfg, args, before, Separator);
    hide Inv, Counted, NextRole, Roles, DefaultRefused, Settled, Fed;
    FeedsAt(cfg, args, n, st);
  }

  lemma FeedsAt(cfg: Config, args: seq<string>, n: nat, st: State)
    requires Inv(cfg, args, n, st)
    ensures cfg.Valid() && n <= |args| && StateFits(cfg, st) && st.feeds == Fed(cfg, args, n)
  {}

  // After a turn of the main loop: how far it got, and what it skipped.
  lemma AfterTurn(cfg: Config, args: seq<string>, n: nat, st: State)
    requires MayTurn(cfg, args, n, st) && NextError(cfg, args, Roles(cfg, args, n)).None?
    ensures var step := OneArgument(cfg, st, args[n], Following(args, n));
            step.Ok? &&
            var m := if step.value.usesFollowing then n + 2 else n + 1;
            && m <= |args| && Inv(cfg, args, m, step.value.after) && Settled(cfg, args, Roles(cfg, args, m))
            && Separator !in Roles(cfg, args, m)
            && Roles(cfg, args, m) == Roles(cfg, args, n)
                 + (if step.value.usesFollowing then [step.value.role, OptionValue] else [step.value.role])
            && FirstError(cfg, args, n) == FirstError(cfg, args, m)
  {
    OneArgumentTurns(cfg, args, n, st);
    hide OneArgument, Inv, Roles, NextRole, NextError, NeedsValue, Settled, Classify, FirstError, Fed, FeedsOf;
    var step := OneArgument(cfg, st, args[n], Following(args, n)).value;
    var before := Roles(cfg, args, n);
    ErrorFrom(cfg, args, n);
    RolesGrow(cfg, args, n);
    SettledAfter(cfg, args, before, step.role);
    if step.usesFollowing {
      ValueTurn(cfg, args, n + 1, step.after);
      assert before + [step.role] + [OptionValue] == before + [step.role, OptionValue];
    }
  }

  // The argument after an option that needs one is its value, whatever it looks like.
  lemma ValueTurn(cfg: Config, args: seq<string>, n: nat, st: State)
    requires Inv(cfg, args, n, st) && 0 < n < |args| && !Settled(cfg, args, Roles(cfg, args, n))
    ensures Inv(cfg, args, n + 1, st) && Settled(cfg, args, Roles(cfg, args, n + 1))
    ensures Roles(cfg, args, n + 1) == Roles(cfg, args, n) + [OptionValue]
    ensures FirstError(cfg, args, n) == FirstError(cfg, args, n + 1)
  {
    var before := Roles(cfg, args, n);
    assert NextRole(cfg, args, before) == OptionValue;
    NothingToDo(cfg, args, n, OptionValue);
    InvAfterNothing(cfg, args, n, st);
    SettledAfter(cfg, args, before, OptionValue);
    hide Inv, NextRole, NextError, Settled;
  }

  lemma {:induction false} ScanMeaning(cfg: Config, args: seq<string>, n: nat, st: State)
    requires Inv(cfg, args, n, st) && 0 < n
    requires Separator !in Roles(cfg, args, n) && Settled(cfg, args, Roles(cfg, args, n))
    ensures StateFits(cfg, st)
    ensures match Scan(cfg, args, Roles(cfg, args, n), st)
            case Err(e) => FirstError(cfg, args, n) == Some(e)
            case Ok(s) => Scans(cfg, args, n, s, |s.roles|)
    decreases |args| - n
  {
    FeedsAt(cfg, args, n, st);
    var before := Roles(cfg, args, n);
    if n == |args| {
      hide Inv, DefaultRefused, Roles, Fed;
    } else if args[n] == "--" {
      ScanAtSeparator(cfg, args, n, st);
      hide *;
      assert Scan(cfg, args, before, st) == Ok(Scanned(before + [Separator], st)) by {
        ScanOnce(cfg, args, before, st);
      }
    } else {
      OneArgumentTurns(cfg, args, n, st);
      ScanOnce(cfg, args, before, st);
      if NextError(cfg, args, before).None? {
        AfterTurn(cfg, args, n, st);
        var step := OneArgument(cfg, st, args[n], Following(args, n)).value;
        var m := if step.usesFollowing then n + 2 else n + 1;
        hide Inv, Turned, Scan, OneArgument, Roles, FirstError, Settled, NextError, DefaultRefused;
        ScanMeaning(cfg, args, m, step.after);
      } else {
        hide Inv, Scan, OneArgument, Roles, Settled;
      }
    }
  }

  // One unrolling of the loop.
  lemma ScanOnce(cfg: Config, args: seq<string>, roles: seq<Role>, st: State)
    requires cfg.Valid() && StateFits(cfg, st) && |roles| < |args|
    ensures var n := |roles|;
            Scan(cfg, args, roles, st) ==
            if args[n] == "--" then Ok(Scanned(roles + [Separator], st))
            else
              match OneArgument(cfg, st, args[n], Following(args, n))
              case Err(e) => Err(e)
              case Ok(Step(role, used, after)) =>
                Scan(cfg, args, roles + (if used then [role, OptionValue] else [role]), after)
  {}

  // ---- The arguments after the separator ---------------------------------------------------------------------

  lemma KeepOne(cfg: Config, args: seq<string>, n: nat)
    requires cfg.Valid() && 0 < n < |args|
    requires Separator in Roles(cfg, args, n) && Settled(cfg, args, Roles(cfg, args, n))
    requires FirstFree(cfg, Fed(cfg, args, n), 0) == |cfg.positional|
    ensures Roles(cfg, args, n + 1) == Roles(cfg, args, n) + [Kept] && Fed(cfg, args, n + 1) == Fed(cfg, args, n)
    ensures Settled(cfg, args, Roles(cfg, args, n + 1)) && FirstError(cfg, args, n) == FirstError(cfg, args, n + 1)
  {
    var before := Roles(cfg, args, n);
    assert NextRole(cfg, args, before) == Kept;
    NothingToDo(cfg, args, n, Kept);
    SettledAfter(cfg, args, before, Kept);
    hide Roles, NextRole, Settled, FirstFree, Fed, NextError, DefaultRefused;
  }

  // With every positional full, the rest is kept.
  lemma {:induction false} KeepAll(cfg: Config, args: seq<string>, n: nat, m: nat)
    requires cfg.Valid() && 0 < n <= m <= |args|
    requires Separator in Roles(cfg, args, n) && Settled(cfg, args, Roles(cfg, args, n))
    requires FirstFree(cfg, Fed(cfg, args, n), 0) == |cfg.positional|
    ensures Roles(cfg, args, m) == Roles(cfg, args, n) + AllKept(m - n) && Fed(cfg, args, m) == Fed(cfg, args, n)
    ensures Settled(cfg, args, Roles(cfg, args, m)) && FirstError(cfg, args, n) == FirstError(cfg, args, m)
    decreases m
  {
    hide Roles, Settled, FirstFree, Fed, FirstError;
    if m == n {
      assert Roles(cfg, args, n) + AllKept(0) == Roles(cfg, args, n);
    } else {
      KeepAll(cfg, args, n, m - 1);
      KeepOne(cfg, args, m - 1);
      assert Roles(cfg, args, n) + AllKept(m - 1 - n) + [Kept] == Roles(cfg, args, n) + AllKept(m - n);
    }
  }

  lemma RemainingOnce(cfg: Config, args: seq<string>, roles: seq<Role>, st: State)
    requires cfg.Valid() && StateFits(cfg, st) && |roles| <= |args|
    ensures Remaining(cfg, args, roles, st) ==
            if |roles| == |args| then Ok(Scanned(roles, st))
            else
              var r := ConsumePositional(cfg, st, args[|roles|]);
              if r.Err? then Err(r.error)
              else if r.value.0.Some? then Remaining(cfg, args, roles + [Positional(r.value.0.value)], r.value.1)
              else Ok(Scanned(roles + AllKept(|args| - |roles|), r.value.1))
  {}

  lemma SameFeeds(cfg: Config, args: seq<string>, n: nat, m: nat, st: State)
    requires Inv(cfg, args, n, st) && m <= |args| && Fed(cfg, args, m) == Fed(cfg, args, n)
    ensures Inv(cfg, args, m, st)
  {
    hide Fed;
  }

  // What the loops after the separator leave.
  ghost predicate Remains(cfg: Config, args: seq<string>, n: nat, r: Result<Scanned, ParseError>)
    requires cfg.Valid() && n <= |args|
  {
    match r
    case Err(e) => FirstError(cfg, args, n) == Some(e)
    case Ok(s) =>
      && FirstError(cfg, args, n).None? && s.roles == Roles(cfg, args, |args|)
      && Settled(cfg, args, s.roles) && Inv(cfg, args, |args|, s.after)
  }

  lemma RestIsKept(cfg: Config, args: seq<string>, n: nat, after: State)
    requires cfg.Valid() && 0 < n < |args| && Inv(cfg, args, n + 1, after)
    requires Separator in Roles(cfg, args, n) && Settled(cfg, args, Roles(cfg, args, n))
    requires FirstFree(cfg, Fed(cfg, args, n), 0) == |cfg.positional|
    ensures Remains(cfg, args, n, Ok(Scanned(Roles(cfg, args, n) + AllKept(|args| - n), after)))
  {
    hide Inv, Roles, Settled, FirstFree, Fed, FirstError, AllKept;
    KeepAll(cfg, args, n, |args|);
    KeepAll(cfg, args, n, n + 1);
    SeparatorStays(cfg, args, n, |args|);
    NoErrorAtEnd(cfg, args);
    SameFeeds(cfg, args, n + 1, |args|, after);
  }

  lemma NoErrorAtEnd(cfg: Config, args: seq<string>)
    requires cfg.Valid() && Separator in Roles(cfg, args, |args|)
    ensures FirstError(cfg, args, |args|).None?
  {}

  lemma SeparatorStays(cfg: Config, args: seq<string>, n: nat, m: nat)
    requires cfg.Valid() && n <= m <= |args| && Separator in Roles(cfg, args, n)
    ensures Separator in Roles(cfg, args, m)
    decreases m - n
  {
    hide NextRole;
    if n < m {
      SeparatorStays(cfg, args, n, m - 1);
    }
  }

  lemma {:induction false} RemainingMeaning(cfg: Config, args: seq<string>, n: nat, st: State)
    requires Inv(cfg, args, n, st) && 0 < n
    requires Separator in Roles(cfg, args, n) && Settled(cfg, args, Roles(cfg, args, n))
    ensures StateFits(cfg, st) && Remains(cfg, args, n, Remaining(cfg, args, Roles(cfg, args, n), st))
    decreases |args| - n
  {
    FeedsAt(cfg, args, n, st);
    var before := Roles(cfg, args, n);
    RemainingOnce(cfg, args, before, st);
    if n == |args| {
      hide Inv, Remaining;
    } else {
      hide FirstError, Remaining, ConsumePositional, Roles, NextRole, NextError, Settled, AllKept, Inv, Fed, FeedsOf;
      OfferedTurn(cfg, args, n, st);
      RolesGrow(cfg, args, n);
      var role := NextRole(cfg, args, before);
      SettledAfter(cfg, args, before, role);
      ErrorFrom(cfg, args, n);
      if NextError(cfg, args, before).None? {
        var after := ConsumePositional(cfg, st, args[n]).value.1;
        if role.Positional? {
          RemainingMeaning(cfg, args, n + 1, after);
        } else {
          hide Remains;
          FeedsAt(cfg, args, n + 1, after);
          RestIsKept(cfg, args, n, after);
        }
      }
    }
  }

  // ---- The theorem -------------------------------------------------------------------------------------------

  /**
   * A parse fails exactly when some argument, or some default, is in error, and with the first such error.
   * Otherwise every argument gets its role, and exactly the texts the roles name are fed to the options, in order,
   * each of them accepted; every option's count is the number of its feeds, and the counts add up to the length of
   * `arguments()`.
   */
  lemma ParseMeaning(cfg: Config, args: seq<string>)
    requires cfg.Valid() && |args| >= 1
    ensures match FirstError(cfg, args, 0)
            case Some(e) => Parse(cfg, args) == Err(e)
            case None =>
              Parse(cfg, args).Ok? &&
              var s := Parse(cfg, args).value;
              && s.roles == Roles(cfg, args, |args|) && Settled(cfg, args, s.roles)
              && s.after.feeds == Fed(cfg, args, |args|) && (forall f :: f in s.after.feeds ==> IsAccepted(cfg, f))
              && |s.after.counts| == |cfg.details| && Sum(s.after.counts) == |s.after.feeds|
              && forall id :: 0 <= id < |cfg.details| ==> s.after.counts[id] == CountOf(s.after.feeds, id)
  {
    AtStart(cfg, args);
    ScanMeaning(cfg, args, 1, Initial(cfg));
    var scan := Scan(cfg, args, [Program], Initial(cfg));
    if scan.Ok? {
      DefaultsChecked(cfg, args, |scan.value.roles|, scan.value.after);
      hide Scan, Remaining, Roles, Initial, DefaultRefused, DefaultsAccepted, FirstError, Inv, Settled;
      if !DefaultRefused(cfg, scan.value.after.feeds) && scan.value.roles[|scan.value.roles| - 1] == Separator {
        RemainingMeaning(cfg, args, |scan.value.roles|, scan.value.after);
      }
      if Parse(cfg, args).Ok? {
        AtEnd(cfg, args, Parse(cfg, args).value.after);
      }
    }
  }

  lemma NothingFed(cfg: Config, args: seq<string>)
    requires cfg.Valid()
    ensures Roles(cfg, args, 0) == [] && Inv(cfg, args, 0, Initial(cfg))
  {
    SumOfZeros(|cfg.details|);
    hide IsFull, FirstFree, IsAccepted;
  }

  lemma AtStart(cfg: Config, args: seq<string>)
    requires cfg.Valid() && |args| >= 1
    ensures Roles(cfg, args, 1) == [Program] && Inv(cfg, args, 1, Initial(cfg)) && Settled(cfg, args, [Program])
    ensures FirstError(cfg, args, 0) == FirstError(cfg, args, 1)
  {
    NothingFed(cfg, args);
    assert NextRole(cfg, args, []) == Program;
    NothingToDo(cfg, args, 0, Program);
    InvAfterNothing(cfg, args, 0, Initial(cfg));
    hide DefaultRefused, Roles, NextRole, NextError, Fed, Inv, Initial;
  }

  lemma AtEnd(cfg: Config, args: seq<string>, st: State)
    requires Inv(cfg, args, |args|, st)
    ensures st.feeds == Fed(cfg, args, |args|) && (forall f :: f in st.feeds ==> IsAccepted(cfg, f))
    ensures |st.counts| == |cfg.details| && Sum(st.counts) == |st.feeds|
    ensures forall id :: 0 <= id < |cfg.details| ==> st.counts[id] == CountOf(st.feeds, id)
  {}

  lemma DefaultsChecked(cfg: Config, args: seq<string>, n: nat, st: State)
    requires Inv(cfg, args, n, st)
    ensures StateFits(cfg, st) && (DefaultsAccepted(cfg, st) <==> !DefaultRefused(cfg, st.feeds))
  {
    hide Fed, Sum, IsAccepted;
  }

  // ---- Positionals ---------------------------------------------------------------------------------------------

  lemma {:induction false} FedGrows(cfg: Config, args: seq<string>, n: nat, m: nat) returns (more: seq<Feed>)
    requires cfg.Valid() && n <= m <= |args|
    ensures Fed(cfg, args, m) == Fed(cfg, args, n) + more
    ensures n < m ==> FeedsOf(cfg, args, n, NextRole(cfg, args, Roles(cfg, args, n))) <= more
  {
    hide Roles, NextRole, FeedsOf, Fed;
    more := [];
    var i := n;
    while i < m
      invariant n <= i <= m && Fed(cfg, args, i) == Fed(cfg, args, n) + more
      invariant n < i ==> FeedsOf(cfg, args, n, NextRole(cfg, args, Roles(cfg, args, n))) <= more
    {
      RolesGrow(cfg, args, i);
      more := more + FeedsOf(cfg, args, i, NextRole(cfg, args, Roles(cfg, args, i)));
      i := i + 1;
    }
  }

  lemma {:induction false} RoleAt(cfg: Config, args: seq<string>, i: nat, n: nat)
    requires cfg.Valid() && i < n <= |args|
    ensures Roles(cfg, args, n)[i] == NextRole(cfg, args, Roles(cfg, args, i))
    decreases n
  {
    hide Roles, NextRole, Fed, FeedsOf;
    RolesGrow(cfg, args, n - 1);
    if i < n - 1 {
      RoleAt(cfg, args, i, n - 1);
    }
  }

  // The argument is offered to the positionals: it is plain or comes after the separator, and is no option's value.
  predicate IsOffered(cfg: Config, args: seq<string>, i: nat)
    requires cfg.Valid() && i < |args|
  {
    var before := Roles(cfg, args, i);
    0 < i && Settled(cfg, args, before) && (Separator in before || IsPlain(cfg, args[i]))
  }

  lemma OfferedRole(cfg: Config, args: seq<string>, i: nat)
    requires cfg.Valid() && i < |args|
    ensures var role, k := NextRole(cfg, args, Roles(cfg, args, i)), FirstFree(cfg, Fed(cfg, args, i), 0);
            && (IsOffered(cfg, args, i) ==> role == if k < |cfg.positional| then Positional(k) else Kept)
            && (role.Positional? ==> IsOffered(cfg, args, i))
  {
    hide FirstFree, Settled, IsPlain;
  }

  /**
   * Positional targets never move backwards. A scalar positional takes one argument at most, and only while it has
   * no value; the first container that takes one takes every later argument on offer; and once one is left over,
   * all are.
   */
  lemma PositionalsInOrder(cfg: Config, args: seq<string>, i: nat, j: nat)
    requires cfg.Valid() && i < j < |args| && FirstError(cfg, args, 0).None?
    requires IsOffered(cfg, args, i) && IsOffered(cfg, args, j)
    ensures var r, s := Roles(cfg, args, |args|)[i], Roles(cfg, args, |args|)[j];
            && (r.Positional? || r.Kept?) && (s.Positional? || s.Kept?)
            && (r.Kept? ==> s.Kept?)
            && (r.Positional? ==>
                  && IsTarget(cfg, r.target)
                  && (!IsContainer(cfg, r.target) ==> CountOf(Fed(cfg, args, i), TargetOf(cfg, r.target)) == 0)
                  && (s.Positional? ==> r.target <= s.target)
                  && (s == r <==> IsContainer(cfg, r.target)))
  {
    hide NextRole, Roles, Fed, FirstFree, IsOffered, FirstError;
    RoleAt(cfg, args, i, |args|);
    RoleAt(cfg, args, j, |args|);
    OfferedRole(cfg, args, i);
    OfferedRole(cfg, args, j);
    NoErrorAt(cfg, args, 0, i);
    var more := FedGrows(cfg, args, i, j);
    FirstFreeMoves(cfg, Fed(cfg, args, i), more);
    var k := FirstFree(cfg, Fed(cfg, args, i), 0);
    if k < |cfg.positional| && !IsContainer(cfg, k) {
      assert more[0] == Feed(TargetOf(cfg, k), args[i]);
      NowFull(cfg, Fed(cfg, args, i), more, k);
    }
  }

  lemma FirstFreeMoves(cfg: Config, feeds: seq<Feed>, more: seq<Feed>)
    requires cfg.Valid()
    ensures var k := FirstFree(cfg, feeds, 0);
            && k <= FirstFree(cfg, feeds + more, 0)
            && (IsTarget(cfg, k) && IsContainer(cfg, k) ==> FirstFree(cfg, feeds + more, 0) == k)
            && (IsTarget(cfg, k) && !IsContainer(cfg, k) ==> CountOf(feeds, TargetOf(cfg, k)) == 0)
  {
    var k := FirstFree(cfg, feeds, 0);
    forall j | 0 <= j < k
      ensures IsFull(cfg, feeds + more, j)
    {
      FullStaysFull(cfg, feeds, more, j);
    }
    if IsTarget(cfg, k) && IsContainer(cfg, k) {
      FirstFreeIs(cfg, feeds + more, k);
    }
  }

  // A scalar positional that has just been fed is no longer the first free one.
  lemma NowFull(cfg: Config, feeds: seq<Feed>, more: seq<Feed>, k: nat)
    requires cfg.Valid() && IsTarget(cfg, k) && !IsContainer(cfg, k) && |more| > 0
    requires more[0].option == TargetOf(cfg, k)
    ensures FirstFree(cfg, feeds + more, 0) != k
  {
    CountOfAppend([more[0]], more[1..], TargetOf(cfg, k));
    assert [more[0]] + more[1..] == more;
    CountOfAppend(feeds, more, TargetOf(cfg, k));
    assert IsFull(cfg, feeds + more, k);
  }

  lemma {:induction false} NoErrorAt(cfg: Config, args: seq<string>, n: nat, i: nat)
    requires cfg.Valid() && n <= i < |args| && FirstError(cfg, args, n).None?
    ensures NextError(cfg, args, Roles(cfg, args, i)).None?
    decreases i - n
  {
    hide Roles, NextError, NextRole, DefaultRefused;
    if n < i {
      NoErrorAt(cfg, args, n + 1, i);
    }
  }

  // ---- What happens to the arguments that are no use ------------------------------------------------------------

  lemma {:induction false} NothingInGroup(cfg: Config, names: string, j: nat, following: Option<string>)
    requires cfg.Valid() && j <= |names|
    ensures GroupFeeds(cfg, names, j, following) == [] <==> forall k :: j <= k < |names| ==> [names[k]] !in cfg.options
    ensures GroupFeeds(cfg, names, j, following) == [] && GroupError(cfg, names, j, following).None? && j < |names|
            ==> cfg.allowUnrecognised
    decreases |names| - j
  {
    if j < |names| {
      NothingInGroup(cfg, names, j + 1, following);
    }
  }

  /**
   * An argument that a successful parse takes for an option feeds some option, with one exception: a group of
   * letters none of which is registered. Where unrecognised options are allowed, such a group is neither used nor
   * kept in `argv`.
   */
  lemma UselessOptions(cfg: Config, args: seq<string>, i: nat)
    requires cfg.Valid() && i < |args| && FirstError(cfg, args, 0).None?
    requires Roles(cfg, args, |args|)[i] == OptionRole
    ensures var dropped := FeedsOf(cfg, args, i, OptionRole) == [];
            && (dropped <==> Classify(args[i]).Short? && NoneRegistered(cfg, Classify(args[i]).names))
            && (dropped ==> cfg.allowUnrecognised)
  {
    hide Roles, NextRole, FirstError;
    RoleAt(cfg, args, i, |args|);
    NoErrorAt(cfg, args, 0, i);
    if Classify(args[i]).Short? {
      assert Classify(args[i]).names != [];
      NothingInGroup(cfg, Classify(args[i]).names, 0, Following(args, i));
    }
    hide Classify, GroupFeeds, GroupError;
  }

  /** `p -x` with no options, unrecognised ones allowed: the parse succeeds, and "-x" is in neither result. */
  lemma DroppedWitness()
    ensures var cfg := Config(map[], [], [], true, (_, _) => true);
            var args := ["p", "-x"];
            cfg.Valid() && Parse(cfg, args) == Ok(Scanned([Program, OptionRole], State([], 0, [])))
            && KeptArgs(args, [Program, OptionRole]) == ["p"]
  {
    var cfg := Config(map[], [], [], true, (_, _) => true);
    var args := ["p", "-x"];
    assert Classify("-x") == Short("x");
    assert ShortGroup(cfg, Initial(cfg), "x", 1, None) == Ok((false, Initial(cfg)));
    assert OneArgument(cfg, Initial(cfg), "-x", None) == Ok(Step(OptionRole, false, Initial(cfg)));
    assert [Program] + [OptionRole] == [Program, OptionRole];
    ScanOnce(cfg, args, [Program], Initial(cfg));
    assert [Program, OptionRole][..1] == [Program] && [Program][..0] == [];
  }

  predicate NoneRegistered(cfg: Config, names: string) {
    forall k :: 0 <= k < |names| ==> [names[k]] !in cfg.options
  }

  /** An argument that is kept found every positional full, or is an unrecognised long option that is let through. */
  lemma KeptArguments(cfg: Config, args: seq<string>, i: nat)
    requires cfg.Valid() && i < |args| && Roles(cfg, args, |args|)[i] == Kept
    ensures IsUnknownLong(cfg, args[i]) || forall k :: 0 <= k < |cfg.positional| ==> IsFull(cfg, Fed(cfg, args, i), k)
  {
    RoleAt(cfg, args, i, |args|);
    hide IsUnknownLong, IsFull, Settled, IsPlain;
  }
}
