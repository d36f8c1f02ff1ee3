/** Scanning a command line: which argument is what, and what is done with it. */
module ArgvScan {
  import opened Wrappers
  import opened Options

  /** What an argument turns out to be. */
  datatype Role = NonOption | ShortOption | ShortValue | LongOption | Terminator

  /** The role of an argument that is looked at as an option, from its first three characters. */
  function Shape(arg: string): Role {
    if |arg| == 0 || arg[0] != '-' then NonOption
    else if |arg| == 1 then NonOption
    else if arg[1] != '-' then ShortOption
    else if |arg| == 2 then Terminator
    else LongOption
  }

  /** A lone "--" ends the options, "--" with something behind it is a long option, one dash with
      something else behind it a short one; everything else, a lone "-" included, is none. */
  lemma ShapeMeaning(arg: string)
    ensures Shape(arg) == Terminator <==> arg == "--"
    ensures Shape(arg) == LongOption <==> "--" <= arg && arg != "--"
    ensures Shape(arg) == ShortOption <==> "-" <= arg && arg != "-" && !("--" <= arg)
    ensures Shape(arg) == NonOption <==> arg == "-" || !("-" <= arg)
    ensures Shape(arg) != ShortValue
  {
  }

  /** Roles of the arguments from position i on: behind "--" everything is a non-option, and a
      short option takes the next argument, if there is one, as its value. */
  function Roles(args: seq<string>, i: nat): (r: seq<Role>)
    requires i <= |args|
    ensures |r| == |args| - i
    decreases |args| - i
  {
    if i == |args| then []
    else
      match Shape(args[i])
      case Terminator => [Terminator] + Rest(|args| - i - 1)
      case ShortOption =>
        if i + 1 == |args| then [ShortOption] else [ShortOption, ShortValue] + Roles(args, i + 2)
      case role => [role] + Roles(args, i + 1)
  }

  function Rest(n: nat): (r: seq<Role>)
    ensures |r| == n && forall k :: 0 <= k < n ==> r[k] == NonOption
  {
    seq(n, _ => NonOption)
  }

  /** An independent description: the role of an argument from what stands before it. */
  ghost function RoleAt(arg: string, before: seq<Role>): Role {
    if Terminator in before then NonOption
    else if |before| > 0 && before[|before| - 1] == ShortOption then ShortValue
    else Shape(arg)
  }

  ghost predicate Classified(args: seq<string>, from: nat, roles: seq<Role>) {
    from + |roles| == |args| && forall k :: 0 <= k < |roles| ==> roles[k] == RoleAt(args[from + k], roles[..k])
  }

  /** Roles that neither end the options nor leave a value open have no say in what follows. */
  lemma RoleBehind(arg: string, front: seq<Role>, before: seq<Role>)
    requires |front| > 0 && Terminator !in front && front[|front| - 1] != ShortOption
    ensures RoleAt(arg, front + before) == RoleAt(arg, before)
  {
    assert Terminator in front + before <==> Terminator in before;
  }

  /** Prefixing such roles changes nothing behind them. */
  lemma ClassifiedBehind(args: seq<string>, i: nat, front: seq<Role>, behind: seq<Role>)
    requires |front| > 0 && Classified(args, i + |front|, behind)
    requires Terminator !in front && front[|front| - 1] != ShortOption
    requires forall k :: 0 <= k < |front| ==> front[k] == RoleAt(args[i + k], front[..k])
    ensures Classified(args, i, front + behind)
  {
    hide RoleAt;
    var roles, n := front + behind, |front|;
    forall k | 0 <= k < |roles|
      ensures roles[k] == RoleAt(args[i + k], roles[..k])
    {
      if k < n {
        assert roles[..k] == front[..k];
      } else {
        var m := k - n;
        assert roles[..k] == front + behind[..m];
        assert behind[m] == RoleAt(args[i + n + m], behind[..m]);
        RoleBehind(args[i + k], front, behind[..m]);
      }
    }
  }

  lemma {:induction false} RolesClassified(args: seq<string>, i: nat)
    requires i <= |args|
    ensures Classified(args, i, Roles(args, i))
    decreases |args| - i
  {
    if i < |args| {
      var shape := Shape(args[i]);
      if shape == Terminator {
        BehindTerminator(args, i);
      } else if shape == ShortOption {
        if i + 1 < |args| {
          RolesClassified(args, i + 2);
          ClassifiedBehind(args, i, [ShortOption, ShortValue], Roles(args, i + 2));
        }
      } else {
        RolesClassified(args, i + 1);
        ClassifiedBehind(args, i, [shape], Roles(args, i + 1));
      }
    }
  }

  lemma BehindTerminator(args: seq<string>, i: nat)
    requires i < |args| && Shape(args[i]) == Terminator
    ensures Classified(args, i, [Terminator] + Rest(|args| - i - 1))
  {
    var roles := [Terminator] + Rest(|args| - i - 1);
    forall k | 0 <= k < |roles|
      ensures roles[k] == RoleAt(args[i + k], roles[..k])
    {
      if k > 0 {
        assert roles[..k][0] == Terminator;
      }
    }
  }

  /** The description leaves no choice: every argument has exactly one role. */
  lemma {:induction false} ClassifiedUnique(args: seq<string>, from: nat, r1: seq<Role>, r2: seq<Role>, n: nat)
    requires Classified(args, from, r1) && Classified(args, from, r2) && n <= |r1|
    ensures r1[..n] == r2[..n]
  {
    hide RoleAt;
    if n > 0 {
      ClassifiedUnique(args, from, r1, r2, n - 1);
      assert r1[n - 1] == RoleAt(args[from + (n - 1)], r1[..n - 1]);
      assert r2[n - 1] == RoleAt(args[from + (n - 1)], r2[..n - 1]);
      assert r1[..n] == r1[..n - 1] + [r1[n - 1]] && r2[..n] == r2[..n - 1] + [r2[n - 1]];
    }
  }

  // ---------- What is done ----------

  /** find_first_not_of('-'); the length of the argument if there is none. */
  function OptStart(arg: string, from: nat): (p: nat)
    requires from <= |arg|
    ensures from <= p <= |arg|
    ensures forall k :: from <= k < p ==> arg[k] == '-'
    ensures p < |arg| ==> arg[p] != '-'
    decreases |arg| - from
  {
    if from < |arg| && arg[from] == '-' then OptStart(arg, from + 1) else from
  }

  function Separator(arg: string, from: nat): (p: nat)
    requires from <= |arg|
    ensures from <= p <= |arg|
    ensures forall k :: from <= k < p ==> arg[k] != '='
    ensures p < |arg| ==> arg[p] == '='
    decreases |arg| - from
  {
    if from < |arg| && arg[from] != '=' then Separator(arg, from + 1) else from
  }

  /** Nothing but dashes: std::string::substr throws for such a long option. */
  predicate OnlyDashes(arg: string) {
    OptStart(arg, 0) == |arg|
  }

  lemma OnlyDashesMeaning(arg: string)
    ensures OnlyDashes(arg) <==> forall k :: 0 <= k < |arg| ==> arg[k] == '-'
  {
  }

  /** One call of storePair, or the complaint about a short option at the very end. */
  datatype Action = Store(long: bool, name: string, value: string) | Complain(name: string)

  /** The '=' cannot stand among the dashes. */
  lemma DashesBeforeSeparator(arg: string)
    ensures OptStart(arg, 0) <= Separator(arg, 0)
  {
  }

  /** What parseGNU does with an argument. */
  function LongAction(arg: string): Action {
    var start := OptStart(arg, 0);
    var sep := Separator(arg, 0);
    DashesBeforeSeparator(arg);
    if sep == |arg| then Store(true, arg[start..], "1") else Store(true, arg[start..sep], arg[sep + 1..])
  }

  /** The two forms of a long option: dashes and a name, or dashes, a name, '=' and a value. A
      name holds no '=' and does not start with a dash. */
  ghost predicate LongForm(arg: string, dashes: string, name: string, value: Option<string>) {
    && (forall k :: 0 <= k < |dashes| ==> dashes[k] == '-')
    && '=' !in name && (name != "" ==> name[0] != '-')
    && match value
       case None => name != "" && arg == dashes + name
       case Some(v) => arg == dashes + name + ("=" + v)
  }

  lemma ThreeParts(x: string, y: string, z: string)
    ensures var s, n := x + y + z, |x| + |y|;
            && (forall k :: 0 <= k < |x| ==> s[k] == x[k])
            && (forall k :: |x| <= k < n ==> s[k] == y[k - |x|])
            && (forall k :: n <= k < |s| ==> s[k] == z[k - n])
            && s[|x|..n] == y && s[|x|..] == y + z
            && (|z| > 0 ==> s[n + 1..] == z[1..])
  {
  }

  lemma NameFound(arg: string, dashes: string, name: string, rest: string)
    requires forall k :: 0 <= k < |dashes| ==> dashes[k] == '-'
    requires '=' !in name && (name != "" ==> name[0] != '-')
    requires arg == dashes + name + rest && (rest == "" ==> name != "") && (rest != "" ==> rest[0] == '=')
    ensures LongAction(arg) == Store(true, name, if rest == "" then "1" else rest[1..])
  {
    hide OptStart, Separator;
    ThreeParts(dashes, name, rest);
    StartUnique(arg, |dashes|);
    SeparatorUnique(arg, |dashes| + |name|);
  }

  /** --name=value stores the value, whatever it looks like; --name stores "1". */
  lemma LongActionOfForm(arg: string, dashes: string, name: string, value: Option<string>)
    requires LongForm(arg, dashes, name, value)
    ensures LongAction(arg) == Store(true, name, if value.Some? then value.value else "1")
  {
    hide LongAction;
    match value
    case None =>
      assert dashes + name + "" == dashes + name;
      NameFound(arg, dashes, name, "");
    case Some(v) =>
      NameFound(arg, dashes, name, "=" + v);
      assert ("=" + v)[1..] == v;
  }

  /** The same without the notion of a form. */
  lemma LongActionLiteral(dashes: string, name: string, value: string)
    requires forall k :: 0 <= k < |dashes| ==> dashes[k] == '-'
    requires '=' !in name && (name != "" ==> name[0] != '-')
    ensures LongAction(dashes + name + "=" + value) == Store(true, name, value)
    ensures name != "" ==> LongAction(dashes + name) == Store(true, name, "1")
  {
    assert dashes + name + "=" + value == dashes + name + ("=" + value);
    LongActionOfForm(dashes + name + "=" + value, dashes, name, Some(value));
    if name != "" {
      LongActionOfForm(dashes + name, dashes, name, None);
    }
  }

  lemma LongActionOfForms(arg: string)
    ensures forall dashes, name, value :: LongForm(arg, dashes, name, value) ==>
              LongAction(arg) == Store(true, name, if value.Some? then value.value else "1")
  {
    forall dashes, name, value | LongForm(arg, dashes, name, value)
      ensures LongAction(arg) == Store(true, name, if value.Some? then value.value else "1")
    {
      LongActionOfForm(arg, dashes, name, value);
    }
  }

  lemma ThreePieces(s: string, m: nat, n: nat)
    requires m <= n <= |s|
    ensures s == s[..m] + s[m..n] + s[n..]
    ensures n < |s| ==> s[n..] == [s[n]] + s[n + 1..]
  {
  }

  lemma FormOfPieces(arg: string, m: nat, n: nat)
    requires m <= n <= |arg| && m < |arg| && arg[m] != '-' && (n < |arg| ==> arg[n] == '=')
    requires forall k :: 0 <= k < m ==> arg[k] == '-'
    requires forall k :: 0 <= k < n ==> arg[k] != '='
    ensures LongForm(arg, arg[..m], arg[m..n], if n == |arg| then None else Some(arg[n + 1..]))
  {
    ThreePieces(arg, m, n);
  }

  /** Every argument that holds more than dashes has one of the two forms. */
  lemma LongFormExists(arg: string)
    requires !OnlyDashes(arg)
    ensures exists dashes, name, value :: LongForm(arg, dashes, name, value)
  {
    hide LongForm, OptStart, Separator;
    DashesBeforeSeparator(arg);
    var m, n := OptStart(arg, 0), Separator(arg, 0);
    var value := if n == |arg| then None else Some(arg[n + 1..]);
    FormOfPieces(arg, m, n);
    assert LongForm(arg, arg[..m], arg[m..n], value);
  }

  lemma StartUnique(arg: string, p: nat)
    requires p < |arg| && arg[p] != '-' && forall k :: 0 <= k < p ==> arg[k] == '-'
    ensures OptStart(arg, 0) == p
  {
  }

  lemma SeparatorUnique(arg: string, p: nat)
    requires p <= |arg| && (p < |arg| ==> arg[p] == '=') && forall k :: 0 <= k < p ==> arg[k] != '='
    ensures Separator(arg, 0) == p
  {
  }

  /** What parseSHORT does with the argument at position i. */
  function ShortAction(args: seq<string>, i: nat): Action
    requires i < |args|
  {
    var name := args[i][OptStart(args[i], 0)..];
    if i + 1 == |args| then Complain(name) else Store(false, name, args[i + 1])
  }

  /** A dash and a name that does not start with one. */
  ghost predicate ShortForm(arg: string, name: string) {
    name != "" && name[0] != '-' && arg == "-" + name
  }

  /** -name is stored with the next argument as its value, even one that looks like an option; at
      the very end it is complained about. */
  lemma ShortActionOfForm(args: seq<string>, i: nat, name: string)
    requires i < |args| && ShortForm(args[i], name)
    ensures ShortAction(args, i) == if i + 1 < |args| then Store(false, name, args[i + 1]) else Complain(name)
  {
    StartUnique(args[i], 1);
    assert args[i][1..] == name;
  }

  /** The arguments in the shape of a short option are those of that form. */
  lemma ShortFormExists(arg: string)
    ensures Shape(arg) == ShortOption <==> exists name :: ShortForm(arg, name)
  {
    if Shape(arg) == ShortOption {
      assert arg == "-" + arg[1..];
      assert ShortForm(arg, arg[1..]);
    }
  }

  /** The arguments with the role NonOption among the first n, in order. */
  function NonOptions(args: seq<string>, from: nat, roles: seq<Role>, n: nat): seq<string>
    requires from + |roles| == |args| && n <= |roles|
  {
    if n == 0 then []
    else NonOptions(args, from, roles, n - 1) + if roles[n - 1] == NonOption then [args[from + n - 1]] else []
  }

  /** What the options among the first n arguments cause, in order. */
  function Actions(args: seq<string>, from: nat, roles: seq<Role>, n: nat): seq<Action>
    requires from + |roles| == |args| && n <= |roles|
  {
    if n == 0 then []
    else
      Actions(args, from, roles, n - 1) +
      match roles[n - 1]
      case LongOption => [LongAction(args[from + n - 1])]
      case ShortOption => [ShortAction(args, from + n - 1)]
      case _ => []
  }

  /** One more argument. */
  lemma Extend(args: seq<string>, from: nat, roles: seq<Role>, n: nat)
    requires from + |roles| == |args| && n < |roles|
    ensures roles[n] == NonOption ==>
              NonOptions(args, from, roles, n + 1) == NonOptions(args, from, roles, n) + [args[from + n]]
    ensures roles[n] != NonOption ==> NonOptions(args, from, roles, n + 1) == NonOptions(args, from, roles, n)
    ensures roles[n] == LongOption ==>
              Actions(args, from, roles, n + 1) == Actions(args, from, roles, n) + [LongAction(args[from + n])]
    ensures roles[n] == ShortOption ==>
              Actions(args, from, roles, n + 1) == Actions(args, from, roles, n) + [ShortAction(args, from + n)]
    ensures roles[n] != LongOption && roles[n] != ShortOption ==>
              Actions(args, from, roles, n + 1) == Actions(args, from, roles, n)
  {
  }

  /** The assignments and the reports that one action causes. */
  function StoreOf(t: Tables, a: Action): seq<(nat, string)> {
    match a
    case Store(long, name, value) => Assignments(Lookup(t, long, !long, name, value))
    case Complain(_) => []
  }

  function ReportOf(t: Tables, a: Action): seq<Report> {
    match a
    case Store(long, name, value) => Complaints(Lookup(t, long, !long, name, value), name, value)
    case Complain(name) => [MissingArgument(name)]
  }

  function Stores(t: Tables, actions: seq<Action>): seq<(nat, string)> {
    if |actions| == 0 then [] else Stores(t, actions[..|actions| - 1]) + StoreOf(t, actions[|actions| - 1])
  }

  function Reports(t: Tables, actions: seq<Action>): seq<Report> {
    if |actions| == 0 then [] else Reports(t, actions[..|actions| - 1]) + ReportOf(t, actions[|actions| - 1])
  }

  lemma OneMore(t: Tables, stored: seq<(nat, string)>, reports: seq<Report>, actions: seq<Action>, a: Action)
    ensures stored + Stores(t, actions + [a]) == stored + Stores(t, actions) + StoreOf(t, a)
    ensures reports + Reports(t, actions + [a]) == reports + Reports(t, actions) + ReportOf(t, a)
  {
  }

  // ---------- The roles, told from the arguments alone ----------

  /** The argument at position k, in front of the end of the options, is the value of the short
      option before it, which is not itself such a value. */
  ghost predicate IsValue(args: seq<string>, k: nat)
    requires 1 <= k < |args|
    decreases k
  {
    k > 1 && !IsValue(args, k - 1) && "-" <= args[k - 1] && args[k - 1] != "-" && !("--" <= args[k - 1])
  }

  /** No "--" in front of position k that is not a value. */
  ghost predicate OptionsUpTo(args: seq<string>, k: nat)
    requires k <= |args|
  {
    forall j :: 1 <= j < k && args[j] == "--" ==> IsValue(args, j)
  }

  lemma {:induction false} RolesSoFar(args: seq<string>, k: nat)
    requires 1 <= k <= |args| && OptionsUpTo(args, k)
    ensures Terminator !in AllRoles(args)[..k - 1]
    ensures k > 1 ==> (AllRoles(args)[k - 2] == ShortOption <==>
                         !IsValue(args, k - 1) && Shape(args[k - 1]) == ShortOption)
    decreases k
  {
    hide Roles, Shape;
    var roles := AllRoles(args);
    if k > 1 {
      RolesSoFar(args, k - 1);
      RolesClassified(args, 1);
      assert roles[k - 2] == RoleAt(args[1 + (k - 2)], roles[..k - 2]);
      assert roles[..k - 1] == roles[..k - 2] + [roles[k - 2]];
      ShapeMeaning(args[k - 1]);
      if k > 2 {
        ShapeMeaning(args[k - 2]);
      }
    }
  }

  /** Up to the end of the options an argument is a value or what it looks like ... */
  lemma RoleOfArgument(args: seq<string>, k: nat)
    requires 1 <= k < |args| && OptionsUpTo(args, k)
    ensures AllRoles(args)[k - 1] == if IsValue(args, k) then ShortValue else Shape(args[k])
  {
    var roles := AllRoles(args);
    RolesSoFar(args, k);
    RolesClassified(args, 1);
    assert roles[k - 1] == RoleAt(args[1 + (k - 1)], roles[..k - 1]);
    if k > 1 {
      ShapeMeaning(args[k - 1]);
    }
  }

  /** ... and behind it a non-option. */
  lemma RoleBehindEnd(args: seq<string>, t: nat, k: nat)
    requires 1 <= t < k < |args| && OptionsUpTo(args, t) && args[t] == "--" && !IsValue(args, t)
    ensures AllRoles(args)[k - 1] == NonOption
  {
    var roles := AllRoles(args);
    RoleOfArgument(args, t);
    ShapeMeaning(args[t]);
    RolesClassified(args, 1);
    assert roles[k - 1] == RoleAt(args[1 + (k - 1)], roles[..k - 1]);
    assert roles[..k - 1][t - 1] == Terminator;
  }

  /** The positions of the arguments that are not options, from the arguments alone. */
  ghost predicate IsNonOption(args: seq<string>, k: nat)
    requires 1 <= k < |args|
  {
    if OptionsUpTo(args, k) then !IsValue(args, k) && (args[k] == "-" || !("-" <= args[k])) else true
  }

  lemma NonOptionRole(args: seq<string>, k: nat)
    requires 1 <= k < |args|
    ensures AllRoles(args)[k - 1] == NonOption <==> IsNonOption(args, k)
  {
    if OptionsUpTo(args, k) {
      RoleOfArgument(args, k);
      ShapeMeaning(args[k]);
    } else {
      var t := EndOfOptions(args, k);
      RoleBehindEnd(args, t, k);
    }
  }

  /** The first "--" that is not a value. */
  lemma {:induction false} EndOfOptions(args: seq<string>, k: nat) returns (t: nat)
    requires k <= |args| && !OptionsUpTo(args, k)
    ensures 1 <= t < k && OptionsUpTo(args, t) && args[t] == "--" && !IsValue(args, t)
  {
    if OptionsUpTo(args, k - 1) {
      t := k - 1;
    } else {
      t := EndOfOptions(args, k - 1);
    }
  }

  /** The values at ascending positions that are exactly those of the non-options. */
  ghost predicate NonOptionsAt(args: seq<string>, values: seq<string>, at: seq<nat>, n: nat)
    requires 1 <= n <= |args|
  {
    && |at| == |values|
    && (forall i, j :: 0 <= i < j < |at| ==> at[i] < at[j])
    && (forall i :: 0 <= i < |at| ==> 1 <= at[i] < n && values[i] == args[at[i]])
    && (forall k :: 1 <= k < n ==> (k in at <==> IsNonOption(args, k)))
  }

  /** There is one such list only: its elements are the non-options in the order of the arguments. */
  lemma {:induction false} NonOptionsUnique(args: seq<string>, u: seq<string>, v: seq<string>, at: seq<nat>,
                                            to: seq<nat>, n: nat)
    requires 1 <= n <= |args| && NonOptionsAt(args, u, at, n) && NonOptionsAt(args, v, to, n)
    ensures u == v && at == to
  {
    hide IsNonOption;
    SameAscending(at, to);
    assert forall i :: 0 <= i < |u| ==> u[i] == args[at[i]] == v[i];
  }

  ghost predicate Rising(a: seq<nat>) {
    forall i, j :: 0 <= i < j < |a| ==> a[i] < a[j]
  }

  lemma WithoutLast(a: seq<nat>)
    requires Rising(a) && |a| > 0
    ensures Rising(a[..|a| - 1]) && a[|a| - 1] in a
    ensures forall k :: k in a[..|a| - 1] <==> k in a && k != a[|a| - 1]
    ensures forall k :: k in a ==> k <= a[|a| - 1]
  {
    assert a == a[..|a| - 1] + [a[|a| - 1]];
  }

  lemma {:induction false} SameAscending(a: seq<nat>, b: seq<nat>)
    requires Rising(a) && Rising(b) && forall k :: k in a <==> k in b
    ensures a == b
  {
    assert |b| > 0 ==> b[0] in a;
    if |a| > 0 {
      assert a[0] in b;
      WithoutLast(a);
      WithoutLast(b);
      hide Rising;
      assert a[|a| - 1] == b[|b| - 1];
      var a', b' := a[..|a| - 1], b[..|b| - 1];
      forall k
        ensures k in a' <==> k in b'
      {
        assert k in a <==> k in b;
      }
      SameAscending(a', b');
      assert a == a[..|a| - 1] + [a[|a| - 1]] && b == b[..|b| - 1] + [b[|b| - 1]];
    }
  }

  lemma NextPosition(args: seq<string>, values: seq<string>, at: seq<nat>, n: nat)
    requires 1 <= n < |args| && NonOptionsAt(args, values, at, n)
    ensures IsNonOption(args, n) ==> NonOptionsAt(args, values + [args[n]], at + [n], n + 1)
    ensures !IsNonOption(args, n) ==> NonOptionsAt(args, values, at, n + 1)
  {
    hide IsNonOption;
    forall k | 1 <= k < n + 1
      ensures k in at + [n] <==> k in at || k == n
    {
    }
  }

  lemma OneMorePosition(args: seq<string>, n: nat, before: seq<nat>) returns (at: seq<nat>)
    requires 1 <= n < |args|
    requires NonOptionsAt(args, NonOptions(args, 1, AllRoles(args), n - 1), before, n)
    ensures NonOptionsAt(args, NonOptions(args, 1, AllRoles(args), n), at, n + 1)
  {
    hide IsNonOption, NonOptions, NonOptionsAt, Roles;
    Extend(args, 1, AllRoles(args), n - 1);
    NonOptionRole(args, n);
    NextPosition(args, NonOptions(args, 1, AllRoles(args), n - 1), before, n);
    at := if IsNonOption(args, n) then before + [n] else before;
  }

  lemma NoPositions(args: seq<string>)
    requires |args| > 0
    ensures NonOptionsAt(args, NonOptions(args, 1, AllRoles(args), 0), [], 1)
  {
  }

  lemma {:induction false} NonOptionsInOrder(args: seq<string>, n: nat) returns (at: seq<nat>)
    requires 1 <= n <= |args|
    ensures NonOptionsAt(args, NonOptions(args, 1, AllRoles(args), n - 1), at, n)
    decreases n
  {
    hide NonOptions, NonOptionsAt, Roles;
    if n == 1 {
      NoPositions(args);
      at := [];
    } else {
      at := NonOptionsInOrder(args, n - 1);
      at := OneMorePosition(args, n - 1, at);
    }
  }

  /** Everything behind the end of the options is kept, as it is. */
  lemma {:induction false} BehindEnd(args: seq<string>, t: nat, n: nat)
    requires 1 <= t < n <= |args| && OptionsUpTo(args, t) && args[t] == "--" && !IsValue(args, t)
    ensures NonOptions(args, 1, AllRoles(args), n - 1)
         == NonOptions(args, 1, AllRoles(args), t - 1) + args[t + 1..n]
    decreases n
  {
    hide IsValue, OptionsUpTo, NonOptions, Roles;
    Extend(args, 1, AllRoles(args), n - 2);
    if n == t + 1 {
      RoleOfArgument(args, t);
      ShapeMeaning(args[t]);
      assert args[t + 1..n] == [];
    } else {
      BehindEnd(args, t, n - 1);
      RoleBehindEnd(args, t, n - 1);
      assert args[t + 1..n] == args[t + 1..n - 1] + [args[n - 1]];
    }
  }

  /** What an action causes is stored somewhere in between what the others cause. */
  lemma {:induction false} StoredAmong(t: Tables, actions: seq<Action>, i: nat)
    returns (a: seq<(nat, string)>, b: seq<(nat, string)>)
    requires i < |actions|
    ensures Stores(t, actions) == a + StoreOf(t, actions[i]) + b
  {
    hide StoreOf;
    var init, last := actions[..|actions| - 1], actions[|actions| - 1];
    if i == |actions| - 1 {
      a, b := Stores(t, init), [];
    } else {
      a, b := StoredAmong(t, init, i);
      assert a + StoreOf(t, actions[i]) + b + StoreOf(t, last) == a + StoreOf(t, actions[i]) + (b + StoreOf(t, last));
      b := b + StoreOf(t, last);
    }
  }

  lemma {:induction false} ActionAmong(args: seq<string>, k: nat, n: nat) returns (i: nat)
    requires 1 <= k < n <= |args| && AllRoles(args)[k - 1] in {LongOption, ShortOption}
    ensures var actions := Actions(args, 1, AllRoles(args), n - 1);
            i < |actions| && actions[i] == ActionOf(args, k)
    decreases n
  {
    hide Actions, Roles, LongAction, ShortAction;
    Extend(args, 1, AllRoles(args), n - 2);
    if n == k + 1 {
      i := |Actions(args, 1, AllRoles(args), n - 2)|;
    } else {
      i := ActionAmong(args, k, n - 1);
    }
  }

  function ActionOf(args: seq<string>, k: nat): Action
    requires 1 <= k < |args|
  {
    if AllRoles(args)[k - 1] == LongOption then LongAction(args[k]) else ShortAction(args, k)
  }

  /** Wherever --name=value, or -name in front of a value, stands among the options, its pair is
      looked up and stored. */
  lemma LongStored(t: Tables, args: seq<string>, k: nat, name: string, value: string)
    returns (a: seq<(nat, string)>, b: seq<(nat, string)>)
    requires 1 <= k < |args| && OptionsUpTo(args, k) && !IsValue(args, k)
    requires args[k] == "--" + name + "=" + value && '=' !in name && (name != "" ==> name[0] != '-')
    ensures Stores(t, Actions(args, 1, AllRoles(args), |args| - 1))
         == a + Assignments(Lookup(t, true, false, name, value)) + b
  {
    hide Stores, Actions, Roles, IsValue, OptionsUpTo, Lookup, Assignments;
    RoleOfArgument(args, k);
    ShapeMeaning(args[k]);
    assert args[k][0] == '-' && args[k][1] == '-' && |args[k]| > 2;
    LongActionLiteral("--", name, value);
    var i := ActionAmong(args, k, |args|);
    a, b := StoredAmong(t, Actions(args, 1, AllRoles(args), |args| - 1), i);
  }

  lemma ShortStored(t: Tables, args: seq<string>, k: nat, name: string)
    returns (a: seq<(nat, string)>, b: seq<(nat, string)>)
    requires 1 <= k < |args| - 1 && OptionsUpTo(args, k) && !IsValue(args, k)
    requires args[k] == "-" + name && name != "" && name[0] != '-'
    ensures Stores(t, Actions(args, 1, AllRoles(args), |args| - 1))
         == a + Assignments(Lookup(t, false, true, name, args[k + 1])) + b
  {
    hide Stores, Actions, Roles, IsValue, OptionsUpTo, Lookup, Assignments;
    RoleOfArgument(args, k);
    ShapeMeaning(args[k]);
    assert args[k][0] == '-' && args[k][1] == name[0];
    ShortActionOfForm(args, k, name);
    var i := ActionAmong(args, k, |args|);
    a, b := StoredAmong(t, Actions(args, 1, AllRoles(args), |args| - 1), i);
  }

  ghost predicate PartOf<T>(part: seq<T>, whole: seq<T>) {
    exists i, j :: 0 <= i <= j <= |whole| && whole[i..j] == part
  }

  /** A part is a run of neighbours: a single element is one exactly if it is there, and two elements
      exactly if they stand next to each other in this order. */
  lemma PartOfMeaning<T>(x: T, y: T, whole: seq<T>)
    ensures PartOf([x], whole) <==> x in whole
    ensures PartOf([x, y], whole) <==> exists i :: 1 <= i < |whole| && whole[i - 1] == x && whole[i] == y
  {
    if x in whole {
      var i :| 0 <= i < |whole| && whole[i] == x;
      assert whole[i..i + 1] == [x];
    }
    if PartOf([x], whole) {
      var i, j :| 0 <= i <= j <= |whole| && whole[i..j] == [x];
      assert whole[i..j][0] == x;
    }
    if PartOf([x, y], whole) {
      var i, j :| 0 <= i <= j <= |whole| && whole[i..j] == [x, y];
      assert whole[i..j][0] == x && whole[i..j][1] == y;
      assert whole[i + 1 - 1] == x && whole[i + 1] == y;
    }
    forall i | 1 <= i < |whole| && whole[i - 1] == x && whole[i] == y
      ensures PartOf([x, y], whole)
    {
      assert whole[i - 1..i + 1] == [x, y];
    }
  }

  lemma IsPart<T>(a: seq<T>, part: seq<T>, b: seq<T>)
    ensures PartOf(part, a + part + b)
  {
    assert (a + part + b)[|a|..|a| + |part|] == part;
  }

  /** What a scan keeps and stores, told from the arguments alone. */
  lemma ScanMeaning(t: Tables, args: seq<string>)
    requires |args| > 0
    ensures var roles := AllRoles(args);
            var kept, stored := NonOptions(args, 1, roles, |roles|), Stores(t, Actions(args, 1, roles, |roles|));
            && (exists at :: NonOptionsAt(args, kept, at, |args|))
            && (forall e :: 1 <= e < |args| && OptionsUpTo(args, e) && args[e] == "--" && !IsValue(args, e) ==>
                  |args| - e - 1 <= |kept| && kept[|kept| - (|args| - e - 1)..] == args[e + 1..])
            && (forall k, name, value ::
                  && 1 <= k < |args| && OptionsUpTo(args, k) && !IsValue(args, k)
                  && args[k] == "--" + name + "=" + value && '=' !in name && (name != "" ==> name[0] != '-') ==>
                  PartOf(Assignments(Lookup(t, true, false, name, value)), stored))
            && (forall k, name ::
                  && 1 <= k < |args| - 1 && OptionsUpTo(args, k) && !IsValue(args, k)
                  && args[k] == "-" + name && name != "" && name[0] != '-' ==>
                  PartOf(Assignments(Lookup(t, false, true, name, args[k + 1])), stored))
  {
    hide NonOptions, Stores, Actions, Roles, OptionsUpTo, IsValue, NonOptionsAt, Lookup, Assignments, PartOf;
    var at := NonOptionsInOrder(args, |args|);
    forall e | 1 <= e < |args| && OptionsUpTo(args, e) && args[e] == "--" && !IsValue(args, e)
      ensures var kept := NonOptions(args, 1, AllRoles(args), |args| - 1);
              |args| - e - 1 <= |kept| && kept[|kept| - (|args| - e - 1)..] == args[e + 1..]
    {
      BehindEnd(args, e, |args|);
      assert args[e + 1..|args|] == args[e + 1..];
    }
    forall k, name, value
      | && 1 <= k < |args| && OptionsUpTo(args, k) && !IsValue(args, k)
        && args[k] == "--" + name + "=" + value && '=' !in name && (name != "" ==> name[0] != '-')
      ensures PartOf(Assignments(Lookup(t, true, false, name, value)),
                     Stores(t, Actions(args, 1, AllRoles(args), |args| - 1)))
    {
      var a, b := LongStored(t, args, k, name, value);
      IsPart(a, Assignments(Lookup(t, true, false, name, value)), b);
    }
    forall k, name
      | && 1 <= k < |args| - 1 && OptionsUpTo(args, k) && !IsValue(args, k)
        && args[k] == "-" + name && name != "" && name[0] != '-'
      ensures PartOf(Assignments(Lookup(t, false, true, name, args[k + 1])),
                     Stores(t, Actions(args, 1, AllRoles(args), |args| - 1)))
    {
      var a, b := ShortStored(t, args, k, name);
      IsPart(a, Assignments(Lookup(t, false, true, name, args[k + 1])), b);
    }
  }

  /** The first argument for which parseGNU throws: a long option of dashes only. */
  ghost predicate FirstThrow(args: seq<string>, roles: seq<Role>, k: nat)
    requires 1 + |roles| == |args|
  {
    && k < |roles| && roles[k] == LongOption && OnlyDashes(args[1 + k])
    && forall j :: 0 <= j < k && roles[j] == LongOption ==> !OnlyDashes(args[1 + j])
  }

  /** The roles of everything behind the program name. */
  function AllRoles(args: seq<string>): (r: seq<Role>)
    requires |args| > 0
    ensures |r| == |args| - 1
  {
    Roles(args, 1)
  }

  /** What the argument at position i is, and where the scan goes on. */
  lemma NextRoles(args: seq<string>, i: nat, roles: seq<Role>)
    requires 1 <= i < |args| && 1 + |roles| == |args| && Roles(args, i) == roles[i - 1..]
    ensures roles[i - 1] == Shape(args[i]) != ShortValue
    ensures roles[i - 1] == Terminator ==> forall k :: i <= k < |roles| ==> roles[k] == NonOption
    ensures roles[i - 1] == ShortOption && i + 1 < |args| ==>
              roles[i] == ShortValue && Roles(args, i + 2) == roles[i + 1..]
    ensures roles[i - 1] != Terminator && (roles[i - 1] == ShortOption ==> i + 1 == |args|) ==>
              Roles(args, i + 1) == roles[i..]
  {
    var rest := Roles(args, i);
    assert forall k :: 0 <= k < |rest| ==> rest[k] == roles[i - 1 + k];
    assert rest[1..] == roles[i..];
    if |rest| > 1 {
      assert rest[2..] == roles[i + 1..];
    }
  }

  class ArgvParser {
    const writer: OptionWriter

    constructor (writer: OptionWriter)
      ensures this.writer == writer
    {
      this.writer := writer;
    }

    /** What the writer has recorded since it held these two lists. */
    ghost predicate Recorded(stored: seq<(nat, string)>, reports: seq<Report>, actions: seq<Action>)
      reads writer
    {
      && writer.stored == stored + Stores(writer.tables, actions)
      && writer.reports == reports + Reports(writer.tables, actions)
    }

    /** parseGNU, at an argument that holds more than dashes: --name=value stores the value, --name
        stores "1", and no further argument is consumed. */
    method ParseGNU(arg: string, ghost stored: seq<(nat, string)>, ghost reports: seq<Report>,
                    ghost actions: seq<Action>)
      requires !OnlyDashes(arg) && Recorded(stored, reports, actions)
      modifies writer
      ensures Recorded(stored, reports, actions + [LongAction(arg)])
      ensures forall dashes, name, value :: LongForm(arg, dashes, name, value) ==>
                Recorded(stored, reports, actions + [Store(true, name, if value.Some? then value.value else "1")])
    {
      LongActionOfForms(arg);
      DashesBeforeSeparator(arg);
      var argOptStart := OptStart(arg, 0);
      var argOptSep := Separator(arg, 0);
      var option := arg[argOptStart..argOptSep];
      hide Stores, Reports, Lookup, Assignments, Complaints, LongForm, ShortForm;
      OneMore(writer.tables, stored, reports, actions, LongAction(arg));
      if argOptSep == |arg| {
        assert option == arg[argOptStart..];
        var ok := writer.StorePair(true, false, option, "1");
      } else {
        var val := arg[argOptSep + 1..];
        var ok := writer.StorePair(true, false, option, val);
      }
    }

    /** parseSHORT: -name takes the next argument as its value, if there is one. */
    method ParseShort(args: seq<string>, i: nat, ghost stored: seq<(nat, string)>, ghost reports: seq<Report>,
                      ghost actions: seq<Action>)
      returns (consumed: nat)
      requires i < |args| && Recorded(stored, reports, actions)
      modifies writer
      ensures Recorded(stored, reports, actions + [ShortAction(args, i)])
      ensures forall name :: ShortForm(args[i], name) ==>
                Recorded(stored, reports,
                         actions + [if i + 1 < |args| then Store(false, name, args[i + 1]) else Complain(name)])
      ensures consumed == if i + 1 == |args| then 0 else 1
    {
      forall name | ShortForm(args[i], name)
        ensures ShortAction(args, i) == if i + 1 < |args| then Store(false, name, args[i + 1]) else Complain(name)
      {
        ShortActionOfForm(args, i, name);
      }
      var argOptStart := OptStart(args[i], 0);
      var option := args[i][argOptStart..];
      hide Stores, Reports, Lookup, Assignments, Complaints, LongForm, ShortForm;
      OneMore(writer.tables, stored, reports, actions, ShortAction(args, i));
      if i + 1 == |args| {
        writer.Report(MissingArgument(option));
        return 0;
      }
      var ok := writer.StorePair(false, true, option, args[i + 1]);
      consumed := 1;
    }

    /** scanArgv. It fails, with the exception of std::string::substr, exactly if an argument in
        the role of a long option is nothing but dashes; all options in front of it are then done. */
    method ScanArgv(args: seq<string>) returns (r: Result<seq<string>>)
      requires |args| > 0
      modifies writer
      ensures var roles := AllRoles(args);
              && (r.Err? <==> exists k :: FirstThrow(args, roles, k))
              && (r.Err? ==>
                    exists k :: FirstThrow(args, roles, k)
                      && writer.stored == old(writer.stored) + Stores(writer.tables, Actions(args, 1, roles, k))
                      && writer.reports == old(writer.reports) + Reports(writer.tables, Actions(args, 1, roles, k)))
              && (r.Ok? ==>
                    && r.value == NonOptions(args, 1, roles, |roles|)
                    && writer.stored == old(writer.stored) + Stores(writer.tables, Actions(args, 1, roles, |roles|))
                    && writer.reports == old(writer.reports) + Reports(writer.tables, Actions(args, 1, roles, |roles|)))
      ensures r.Ok? ==>
                var kept, stored := r.value, writer.stored[|old(writer.stored)|..];
                && (exists at :: NonOptionsAt(args, kept, at, |args|))
                && (forall e :: 1 <= e < |args| && OptionsUpTo(args, e) && args[e] == "--" && !IsValue(args, e) ==>
                      |args| - e - 1 <= |kept| && kept[|kept| - (|args| - e - 1)..] == args[e + 1..])
                && (forall k, name, value ::
                      && 1 <= k < |args| && OptionsUpTo(args, k) && !IsValue(args, k)
                      && args[k] == "--" + name + "=" + value && '=' !in name && (name != "" ==> name[0] != '-') ==>
                      PartOf(Assignments(Lookup(writer.tables, true, false, name, value)), stored))
                && (forall k, name ::
                      && 1 <= k < |args| - 1 && OptionsUpTo(args, k) && !IsValue(args, k)
                      && args[k] == "-" + name && name != "" && name[0] != '-' ==>
                      PartOf(Assignments(Lookup(writer.tables, false, true, name, args[k + 1])), stored))
    {
      hide Roles, NonOptions, Actions, LongAction, ShortAction, Stores, Reports, OnlyDashes, Recorded;
      hide OptionsUpTo, IsValue, NonOptionsAt, Lookup, Assignments, PartOf;
      ghost var stored, reports := writer.stored, writer.reports;
      ghost var roles := AllRoles(args);
      Nothing(args, roles);
      var nonOptionArguments: seq<string> := [];
      var i := 1;
      while i < |args|
        invariant 1 <= i <= |args| && Roles(args, i) == roles[i - 1..]
        invariant nonOptionArguments == NonOptions(args, 1, roles, i - 1)
        invariant Recorded(stored, reports, Actions(args, 1, roles, i - 1))
        invariant forall k :: 0 <= k < i - 1 && roles[k] == LongOption ==> !OnlyDashes(args[1 + k])
      {
        var arg := args[i];
        NextRoles(args, i, roles);
        Extend(args, 1, roles, i - 1);
        if |arg| == 0 || arg[0] != '-' {
          nonOptionArguments := nonOptionArguments + [arg];
        } else if |arg| == 1 {
          nonOptionArguments := nonOptionArguments + [arg];
        } else if arg[1] != '-' {
          var consumed := ParseShort(args, i, stored, reports, Actions(args, 1, roles, i - 1));
          if consumed == 1 {
            Extend(args, 1, roles, i);
            i := i + 1;
          }
        } else if |arg| == 2 {
          nonOptionArguments := TakeRest(args, i, nonOptionArguments, roles);
          break;
        } else {
          if OnlyDashes(arg) {
            assert FirstThrow(args, roles, i - 1);
            AllRecorded(stored, reports, Actions(args, 1, roles, i - 1));
            return Err("basic_string::substr");
          }
          ParseGNU(arg, stored, reports, Actions(args, 1, roles, i - 1));
        }
        i := i + 1;
      }
      AllRecorded(stored, reports, Actions(args, 1, roles, |roles|));
      ScanMeaning(writer.tables, args);
      assert writer.stored[|stored|..] == Stores(writer.tables, Actions(args, 1, roles, |roles|));
      r := Ok(nonOptionArguments);
    }

    lemma AllRecorded(stored: seq<(nat, string)>, reports: seq<Report>, actions: seq<Action>)
      requires Recorded(stored, reports, actions)
      ensures writer.stored == stored + Stores(writer.tables, actions)
      ensures writer.reports == reports + Reports(writer.tables, actions)
    {
    }

    lemma Nothing(args: seq<string>, roles: seq<Role>)
      requires 1 + |roles| == |args|
      ensures NonOptions(args, 1, roles, 0) == [] && Recorded(writer.stored, writer.reports, Actions(args, 1, roles, 0))
    {
    }

    /** The loop behind a lone "--". */
    method TakeRest(args: seq<string>, at: nat, taken: seq<string>, ghost roles: seq<Role>) returns (all: seq<string>)
      requires 1 <= at < |args| && 1 + |roles| == |args|
      requires roles[at - 1] == Terminator && forall k :: at <= k < |roles| ==> roles[k] == NonOption
      requires taken == NonOptions(args, 1, roles, at - 1)
      ensures all == NonOptions(args, 1, roles, |roles|)
      ensures Actions(args, 1, roles, |roles|) == Actions(args, 1, roles, at - 1)
    {
      hide NonOptions, Actions;
      all := taken;
      Extend(args, 1, roles, at - 1);
      var i := at + 1;
      while i < |args|
        invariant at < i <= |args|
        invariant all == NonOptions(args, 1, roles, i - 1)
        invariant Actions(args, 1, roles, i - 1) == Actions(args, 1, roles, at - 1)
      {
        Extend(args, 1, roles, i - 1);
        all := all + [args[i]];
        i := i + 1;
      }
    }
  }
}
