/**
 * The meaning of a command line spelled out on its texts: what an argument looks like, which text reaches which
 * option, which error comes from what, and what stays in `argv`. None of it goes through the helper functions that the
 * parser and its specification share.
 */
module CxxoptsReadings {
  import opened Characters
  import opened Wrappers
  import opened CxxoptsSpec
  import opened CxxoptsLaws
  import opened CxxoptsTheorems

  // ---- What an argument looks like -----------------------------------------------------------------------------

  // [[:alnum:]] by character code.
  predicate IsLetterOrDigit(c: char) {
    var n := c as int;
    48 <= n <= 57 || 65 <= n <= 90 || 97 <= n <= 122
  }

  // `s` is --name or --name=value.
  ghost predicate IsLongText(s: string, name: string, hasValue: bool, value: string) {
    && s == "--" + name + (if hasValue then "=" + value else "")
    && |name| >= 2 && IsLetterOrDigit(name[0])
    && (forall i :: 1 <= i < |name| ==> IsLetterOrDigit(name[i]) || name[i] == '-' || name[i] == '_')
    && (if hasValue then forall i :: 0 <= i < |value| ==> value[i] != '\n' && value[i] != '\r' else value == "")
  }

  // `s` is -names.
  ghost predicate IsShortText(s: string, names: string) {
    s == "-" + names && names != [] && forall i :: 0 <= i < |names| ==> IsLetterOrDigit(names[i])
  }

  lemma {:induction false} NameEndIs(s: string, i: nat, e: nat)
    requires i <= e <= |s| && (e < |s| ==> s[e] == '=')
    requires forall k :: i <= k < e ==> IsAlnum(s[k]) || s[k] == '-' || s[k] == '_'
    ensures NameEnd(s, i) == e
    decreases e - i
  {
    if i < e {
      NameEndIs(s, i + 1, e);
    }
  }

  lemma {:induction false} NameEndStops(s: string, i: nat)
    requires i <= |s|
    ensures forall k :: i <= k < NameEnd(s, i) ==> IsAlnum(s[k]) || s[k] == '-' || s[k] == '_'
    decreases |s| - i
  {
    if i < |s| && (IsAlnum(s[i]) || s[i] == '-' || s[i] == '_') {
      NameEndStops(s, i + 1);
    }
  }

  lemma LongTextIsLong(s: string, name: string, hasValue: bool, value: string)
    requires IsLongText(s, name, hasValue, value)
    ensures Classify(s) == Long(name, hasValue, value)
  {
    var e := 2 + |name|;
    assert forall k :: 2 <= k < e ==> s[k] == name[k - 2];
    NameEndIs(s, 3, e);
    hide NameEnd;
    assert s[2..e] == name;
    if hasValue {
      assert s[e + 1..] == value;
      assert forall i :: e < i < |s| ==> s[i] == value[i - e - 1];
    } else {
      assert s[2..] == name;
    }
  }

  lemma LongIsLongText(s: string)
    requires Classify(s).Long?
    ensures var Long(name, hasValue, value) := Classify(s); IsLongText(s, name, hasValue, value)
  {
    var Long(name, hasValue, value) := Classify(s);
    var e := NameEnd(s, 3);
    NameEndStops(s, 3);
    assert s == "--" + s[2..];
    if hasValue {
      assert s == s[..2] + s[2..e] + [s[e]] + s[e + 1..];
      assert s[..2] == "--";
    }
  }

  /** An argument is taken for a long option, or for a group of short ones, exactly when it is written as one. */
  lemma ClassifyMeaning(s: string)
    ensures forall name, hasValue, value ::
              Classify(s) == Long(name, hasValue, value) <==> IsLongText(s, name, hasValue, value)
    ensures forall names :: Classify(s) == Short(names) <==> IsShortText(s, names)
    ensures LooksLikeOption(s) <==> exists rest: string :: rest != [] && s == "-" + rest
  {
    forall name, hasValue, value
      ensures Classify(s) == Long(name, hasValue, value) <==> IsLongText(s, name, hasValue, value)
    {
      if IsLongText(s, name, hasValue, value) {
        LongTextIsLong(s, name, hasValue, value);
      }
      if Classify(s).Long? {
        LongIsLongText(s);
      }
    }
    forall names
      ensures Classify(s) == Short(names) <==> IsShortText(s, names)
    {
      ShortIsShortText(s, names);
    }
    if LooksLikeOption(s) {
      assert s == "-" + s[1..];
    }
  }

  lemma ShortIsShortText(s: string, names: string)
    ensures Classify(s) == Short(names) <==> IsShortText(s, names)
  {
    if IsShortText(s, names) {
      assert s[1..] == names;
      assert forall i :: 1 <= i < |s| ==> s[i] == names[i - 1];
    }
    if Classify(s).Short? {
      assert s == "-" + s[1..];
      assert forall i :: 0 <= i < |s| - 1 ==> s[1..][i] == s[i + 1];
    }
  }

  // ---- Which text reaches which option ---------------------------------------------------------------------------

  /** A long option is fed what is attached to it, or else its implicit value, or else the next argument. */
  lemma LongOptionFeeds(cfg: Config, args: seq<string>, i: nat)
    requires cfg.Valid() && i < |args| && FirstError(cfg, args, 0).None?
    requires Roles(cfg, args, |args|)[i] == OptionRole && Classify(args[i]).Long?
    ensures var Long(name, hasValue, value) := Classify(args[i]);
            name in cfg.options &&
            var id := cfg.options[name];
            var feeds := FeedsOf(cfg, args, i, OptionRole);
            if hasValue then feeds == [Feed(id, value)]
            else if cfg.details[id].hasImplicit then feeds == [Feed(id, cfg.details[id].implicitValue)]
            else i + 1 < |args| && feeds == [Feed(id, args[i + 1])]
  {
    RoleAt(cfg, args, i, |args|);
    NoErrorAt(cfg, args, 0, i);
    hide Roles, NextRole, FirstError, Classify;
  }

  function CountRegistered(cfg: Config, names: string, j: nat, k: nat): nat
    requires j <= k <= |names|
    decreases k - j
  {
    if j == k then 0 else (if [names[j]] in cfg.options then 1 else 0) + CountRegistered(cfg, names, j + 1, k)
  }

  lemma {:induction false} GroupFeedsAt(cfg: Config, names: string, j: nat, k: nat, following: Option<string>)
    requires cfg.Valid() && j <= k < |names| && [names[k]] in cfg.options
    requires GroupError(cfg, names, j, following).None?
    ensures var feeds, n := GroupFeeds(cfg, names, j, following), CountRegistered(cfg, names, j, k);
            && n < |feeds| && feeds[n].option == cfg.options[[names[k]]]
            && feeds[n].value == ValueFor(cfg, feeds[n].option, following)
            && (k + 1 < |names| ==> cfg.details[feeds[n].option].hasImplicit)
            && (!cfg.details[feeds[n].option].hasImplicit ==> following.Some?)
    decreases k - j
  {
    if j < k {
      GroupFeedsAt(cfg, names, j + 1, k, following);
    }
  }

  lemma {:induction false} GroupFeedsAll(cfg: Config, names: string, j: nat, following: Option<string>)
    requires cfg.Valid() && j <= |names|
    ensures |GroupFeeds(cfg, names, j, following)| == CountRegistered(cfg, names, j, |names|)
    decreases |names| - j
  {
    if j < |names| {
      GroupFeedsAll(cfg, names, j + 1, following);
    }
  }

  /**
   * A group of short options feeds its registered letters, in their order and nothing else: each its implicit value,
   * and a last letter that has none the next argument.
   */
  lemma ShortGroupFeeds(cfg: Config, args: seq<string>, i: nat, k: nat)
    requires cfg.Valid() && i < |args| && FirstError(cfg, args, 0).None?
    requires Roles(cfg, args, |args|)[i] == OptionRole && Classify(args[i]).Short?
    requires k < |Classify(args[i]).names| && [Classify(args[i]).names[k]] in cfg.options
    ensures var names, feeds := Classify(args[i]).names, FeedsOf(cfg, args, i, OptionRole);
            var n, id := CountRegistered(cfg, names, 0, k), cfg.options[[names[k]]];
            && n < |feeds| == CountRegistered(cfg, names, 0, |names|)
            && if cfg.details[id].hasImplicit then feeds[n] == Feed(id, cfg.details[id].implicitValue)
               else k + 1 == |names| && i + 1 < |args| && feeds[n] == Feed(id, args[i + 1])
  {
    RoleAt(cfg, args, i, |args|);
    NoErrorAt(cfg, args, 0, i);
    hide Roles, NextRole, FirstError, Classify;
    var names := Classify(args[i]).names;
    GroupFeedsAt(cfg, names, 0, k, Following(args, i));
    GroupFeedsAll(cfg, names, 0, Following(args, i));
    hide GroupFeeds, GroupError, CountRegistered;
  }

  /** An argument used as an option's value comes right after that option, and is the last text fed to it. */
  lemma OptionValueIsFed(cfg: Config, args: seq<string>, i: nat)
    requires cfg.Valid() && i < |args| && FirstError(cfg, args, 0).None?
    requires Roles(cfg, args, |args|)[i] == OptionValue
    ensures i > 0 && Roles(cfg, args, |args|)[i - 1] == OptionRole
    ensures var feeds := FeedsOf(cfg, args, i - 1, OptionRole); feeds != [] && feeds[|feeds| - 1].value == args[i]
  {
    hide Roles, NextRole, FirstError, Classify, FeedsOf, CountRegistered;
    RoleAt(cfg, args, i, |args|);
    ValueRole(cfg, args, i);
    RoleAt(cfg, args, i - 1, |args|);
    RoleAt(cfg, args, i - 1, i);
    match Classify(args[i - 1]) {
      case NotFlag =>
      case Long(_, _, _) => LongOptionFeeds(cfg, args, i - 1);
      case Short(names) =>
        ShortGroupFeeds(cfg, args, i - 1, |names| - 1);
        LastRegistered(cfg, names, 0);
    }
  }

  lemma ValueRole(cfg: Config, args: seq<string>, i: nat)
    requires cfg.Valid() && i < |args| && NextRole(cfg, args, Roles(cfg, args, i)) == OptionValue
    ensures i > 0 && Roles(cfg, args, i)[i - 1] == OptionRole && NeedsValue(cfg, args[i - 1])
  {
    hide NeedsValue, FirstFree, IsPlain;
  }

  lemma {:induction false} LastRegistered(cfg: Config, names: string, j: nat)
    requires j < |names| && [names[|names| - 1]] in cfg.options
    ensures CountRegistered(cfg, names, j, |names|) == CountRegistered(cfg, names, j, |names| - 1) + 1
    decreases |names| - j
  {
    if j + 1 < |names| {
      LastRegistered(cfg, names, j + 1);
    }
  }

  // ---- Which error comes from what ---------------------------------------------------------------------------------

  // Letter `k` of a group, on its own.
  function LetterVerdict(cfg: Config, args: seq<string>, i: nat, names: string, k: nat): Option<ParseError>
    requires cfg.Valid() && i < |args| && k < |names|
  {
    if [names[k]] !in cfg.options then
      if cfg.allowUnrecognised then None else Some(OptionNotExists)
    else
      var id := cfg.options[[names[k]]];
      if cfg.details[id].hasImplicit then
        if cfg.accepts(id, cfg.details[id].implicitValue) then None else Some(IncorrectType)
      else if k + 1 < |names| then Some(OptionRequiresArgument)
      else if i + 1 == |args| then Some(MissingArgument)
      else if cfg.accepts(id, args[i + 1]) then None
      else Some(IncorrectType)
  }

  lemma {:induction false} GroupErrorIs(cfg: Config, args: seq<string>, i: nat, names: string, j: nat, e: ParseError)
    requires cfg.Valid() && i < |args| && j <= |names|
    ensures GroupError(cfg, names, j, Following(args, i)) == Some(e) <==>
            exists k :: j <= k < |names| && LetterVerdict(cfg, args, i, names, k) == Some(e)
                        && forall l :: j <= l < k ==> LetterVerdict(cfg, args, i, names, l).None?
    decreases |names| - j
  {
    if j < |names| {
      assert LetterVerdict(cfg, args, i, names, j) == LetterError(cfg, names, j, Following(args, i));
      GroupErrorIs(cfg, args, i, names, j + 1, e);
    }
  }

  /** The error of one argument, by its role and its text; a group has the error of its first bad letter. */
  lemma ArgumentError(cfg: Config, args: seq<string>, i: nat, e: ParseError)
    requires cfg.Valid() && i < |args|
    ensures NextError(cfg, args, Roles(cfg, args, i)) == Some(e) <==>
            match NextRole(cfg, args, Roles(cfg, args, i))
            case Positional(k) =>
              if k < |cfg.positional| && cfg.positional[k] in cfg.options then
                e == IncorrectType && !cfg.accepts(cfg.options[cfg.positional[k]], args[i])
              else e == OptionNotExists
            case OptionRole => (
              match Classify(args[i])
              case NotFlag => e == OptionSyntax
              case Short(names) =>
                exists k :: 0 <= k < |names| && LetterVerdict(cfg, args, i, names, k) == Some(e)
                            && forall l :: 0 <= l < k ==> LetterVerdict(cfg, args, i, names, l).None?
              case Long(name, hasValue, value) =>
                if name !in cfg.options then e == OptionNotExists
                else
                  var id := cfg.options[name];
                  if hasValue then e == IncorrectType && !cfg.accepts(id, value)
                  else if cfg.details[id].hasImplicit then
                    e == IncorrectType && !cfg.accepts(id, cfg.details[id].implicitValue)
                  else if i + 1 == |args| then e == MissingArgument
                  else e == IncorrectType && !cfg.accepts(id, args[i + 1])
            )
            case _ => false
  {
    hide Roles, NextRole, Classify;
    if Classify(args[i]).Short? {
      GroupErrorIs(cfg, args, i, Classify(args[i]).names, 0, e);
    }
    hide GroupError, LetterVerdict;
  }

  // Defaults are due at the separator, or else at the end.
  function DefaultsDue(cfg: Config, args: seq<string>, n: nat): (due: nat)
    requires cfg.Valid() && n <= |args|
    ensures n <= due <= |args|
    decreases |args| - n
  {
    if n == |args| || NextRole(cfg, args, Roles(cfg, args, n)) == Separator then n else DefaultsDue(cfg, args, n + 1)
  }

  // Every registered option that the first `n` arguments feed nothing and that has a default accepts it.
  ghost predicate DefaultsFine(cfg: Config, args: seq<string>, n: nat)
    requires cfg.Valid() && n <= |args|
  {
    forall id :: 0 <= id < |cfg.details| && CountOf(Fed(cfg, args, n), id) == 0 && id in cfg.options.Values
                 && cfg.details[id].hasDefault
      ==> cfg.accepts(id, cfg.details[id].defaultValue)
  }

  lemma DefaultRefusedIff(cfg: Config, args: seq<string>, n: nat)
    requires cfg.Valid() && n <= |args|
    ensures DefaultRefused(cfg, Fed(cfg, args, n)) <==> !DefaultsFine(cfg, args, n)
  {
    hide Fed;
  }

  lemma SeparatorOnce(cfg: Config, args: seq<string>, n: nat)
    requires cfg.Valid() && n < |args|
    ensures var role := NextRole(cfg, args, Roles(cfg, args, n));
            && (Separator in Roles(cfg, args, n + 1) <==> Separator in Roles(cfg, args, n) || role == Separator)
            && (role == Separator ==> Separator !in Roles(cfg, args, n))
            && (role == Separator ==> NextError(cfg, args, Roles(cfg, args, n)).None?)
  {
    RolesGrow(cfg, args, n);
    hide Roles, Fed, FeedsOf;
  }

  lemma NoErrorAtTheEnd(cfg: Config, args: seq<string>)
    requires cfg.Valid()
    ensures FirstError(cfg, args, |args|).None? <==>
            (Separator !in Roles(cfg, args, |args|) ==> DefaultsFine(cfg, args, |args|))
    ensures DefaultsDue(cfg, args, |args|) == |args|
  {
    hide DefaultRefused, DefaultsFine, Roles, NextError, NextRole, Fed;
    DefaultRefusedIff(cfg, args, |args|);
  }

  lemma DueOnce(cfg: Config, args: seq<string>, n: nat)
    requires cfg.Valid() && n < |args|
    ensures DefaultsDue(cfg, args, n) ==
            if NextRole(cfg, args, Roles(cfg, args, n)) == Separator then n else DefaultsDue(cfg, args, n + 1)
  {
    hide Roles, NextRole;
  }

  lemma {:induction false} NoErrorFromIff(cfg: Config, args: seq<string>, n: nat)
    requires cfg.Valid() && n <= |args|
    ensures FirstError(cfg, args, n).None? <==>
            && (forall i :: n <= i < |args| ==> NextError(cfg, args, Roles(cfg, args, i)).None?)
            && (Separator !in Roles(cfg, args, n) ==> DefaultsFine(cfg, args, DefaultsDue(cfg, args, n)))
    decreases |args| - n
  {
    hide FirstError, Roles, DefaultsDue, DefaultRefused, DefaultsFine, NextError, NextRole, Fed;
    if n == |args| {
      NoErrorAtTheEnd(cfg, args);
    } else {
      NoErrorFromIff(cfg, args, n + 1);
      DefaultRefusedIff(cfg, args, n);
      SeparatorOnce(cfg, args, n);
      DueOnce(cfg, args, n);
      ErrorFrom(cfg, args, n);
    }
  }

  /**
   * A parse succeeds if and only if no argument is in error and every registered option that was fed nothing before
   * the separator accepts its default.
   */
  lemma ParseSucceedsIff(cfg: Config, args: seq<string>)
    requires cfg.Valid() && |args| >= 1
    ensures Parse(cfg, args).Ok? <==>
            && (forall i :: 0 <= i < |args| ==> NextError(cfg, args, Roles(cfg, args, i)).None?)
            && var due := DefaultsDue(cfg, args, 0);
               forall id :: 0 <= id < |cfg.details| && CountOf(Fed(cfg, args, due), id) == 0
                            && id in cfg.options.Values && cfg.details[id].hasDefault
                 ==> cfg.accepts(id, cfg.details[id].defaultValue)
  {
    hide Parse, Roles, FirstError, NextError, Fed, DefaultsDue, Settled, Inv, IsAccepted, Sum;
    ParseMeaning(cfg, args);
    NothingFed(cfg, args);
    NoErrorFromIff(cfg, args, 0);
    var due := DefaultsDue(cfg, args, 0);
    assert DefaultsFine(cfg, args, due) <==>
               forall id :: 0 <= id < |cfg.details| && CountOf(Fed(cfg, args, due), id) == 0
                            && id in cfg.options.Values && cfg.details[id].hasDefault
                 ==> cfg.accepts(id, cfg.details[id].defaultValue);
    assert FirstError(cfg, args, 0).None? <==>
            && (forall i :: 0 <= i < |args| ==> NextError(cfg, args, Roles(cfg, args, i)).None?)
            && DefaultsFine(cfg, args, due);
  }

  /** After a successful parse, a registered option that was given nothing accepts its default, if it has one. */
  lemma UnfedDefaults(cfg: Config, args: seq<string>, id: nat)
    requires cfg.Valid() && |args| >= 1 && Parse(cfg, args).Ok? && id < |cfg.details|
    requires CountOf(Fed(cfg, args, |args|), id) == 0 && id in cfg.options.Values && cfg.details[id].hasDefault
    ensures cfg.accepts(id, cfg.details[id].defaultValue)
  {
    hide Parse, Fed, DefaultsDue, NextError;
    ParseSucceedsIff(cfg, args);
    var due := DefaultsDue(cfg, args, 0);
    var more := FedGrows(cfg, args, due, |args|);
    CountOfAppend(Fed(cfg, args, due), more, id);
  }

  // ---- What stays in `argv` -----------------------------------------------------------------------------------------

  /** The program name and every kept argument stay, after as many others as were kept before it; nothing else does. */
  lemma {:induction false} KeptInOrder(args: seq<string>, roles: seq<Role>, i: nat)
    requires i < |roles| <= |args|
    ensures var before := |KeptArgs(args, roles[..i])|;
            var stays := roles[i] == Program || roles[i] == Kept;
            && |KeptArgs(args, roles[..i + 1])| == before + (if stays then 1 else 0)
            && (stays ==> before < |KeptArgs(args, roles)| && KeptArgs(args, roles)[before] == args[i])
    decreases |roles|
  {
    var n := |roles| - 1;
    assert roles[..i + 1][..i] == roles[..i];
    if i < n {
      KeptInOrder(args, roles[..n], i);
      assert roles[..n][..i] == roles[..i] && roles[..n][..i + 1] == roles[..i + 1];
    } else {
      assert roles[..i + 1] == roles;
    }
  }
}
