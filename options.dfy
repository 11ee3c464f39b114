/**
 * check_opt after getopt: the loop that turns the (option, argument)
 * pairs getopt returns into the parameter dict, refusing what the tool
 * does not accept. The --etc argument is read with Text.ParseInt, the
 * model of Python's int().
 */
module Options {
  import opened Wrappers
  import opened Text

  /** A parameter: the option's argument as given, or the integer --etc stands for. */
  datatype Value = Str(s: string) | Number(n: int)

  /** The XTDCheckArgument exceptions check_opt raises, one per message. */
  datatype ArgError =
    | Unexpected               // getopt left arguments that are not options
    | Duplicate(option: Opt)
    | NotInteger               // --etc with an argument int() refuses
    | Negative                 // --etc below 0
    | EtcWithB                 // --etc after -b
    | BWithEtc                 // -b after --etc
    | Unknown(option: Opt)
    | HelpNeeded               // --help together with other options

  /**
   * The option names getopt returns ("--isvalid", ..., "-g"), and any
   * other name, kept as it was given.
   */
  datatype Opt = IsValid | Output | Input | Help | Header | Etc | FlagA | FlagB | FlagG | Other(name: string)

  /** The key an option is stored under; None for an option check_opt does not know. */
  function Key(option: Opt): (k: Option<string>)
    ensures k.Some? <==> !option.Other?
  {
    match option
    case IsValid => Some("isvalid")
    case Output => Some("output")
    case Input => Some("input")
    case Help => Some("help")
    case Header => Some("header")
    case Etc => Some("etc")
    case FlagA => Some("a")
    case FlagB => Some("b")
    case FlagG => Some("g")
    case Other(_) => None
  }

  /** Two known options never share a key. */
  lemma KeyInjective(a: Opt, b: Opt)
    requires Key(a).Some? && Key(a) == Key(b)
    ensures a == b
  {
  }

  /** What a known option stores: the parsed --etc, the flag's own letter (or "help"), else the argument. */
  function ValueOf(option: Opt, argument: string): Value {
    match option
    case Etc => if ParseInt(argument).Some? then Number(ParseInt(argument).value) else Str(argument)
    case Help => Str("help")
    case FlagA => Str("a")
    case FlagB => Str("b")
    case FlagG => Str("g")
    case _ => Str(argument)
  }

  /** Some pair among the first `n` has the option `o`. */
  predicate Given(opts: seq<(Opt, string)>, n: nat, o: Opt)
    requires n <= |opts|
  {
    exists i :: 0 <= i < n && opts[i].0 == o
  }

  /** What the loop requires of the first `n` pairs: known options, none twice, a usable --etc, not -b with --etc. */
  ghost predicate Good(opts: seq<(Opt, string)>, n: nat)
    requires n <= |opts|
  {
    && (forall i :: 0 <= i < n ==> Key(opts[i].0).Some?)
    && Unique(opts, n)
    && (forall i :: 0 <= i < n && opts[i].0 == Etc ==> ParseInt(opts[i].1).Some? && ParseInt(opts[i].1).value >= 0)
    && !(Given(opts, n, FlagB) && Given(opts, n, Etc))
  }

  /** No two of the first `n` pairs share a key. */
  ghost predicate Unique(opts: seq<(Opt, string)>, n: nat)
    requires n <= |opts|
  {
    forall i, j :: 0 <= i < j < n ==> Key(opts[i].0) != Key(opts[j].0)
  }

  /** The command lines check_opt accepts. */
  ghost predicate Accepted(opts: seq<(Opt, string)>, args: seq<string>) {
    && args == []
    && Good(opts, |opts|)
    && (Given(opts, |opts|, Help) ==> |opts| == 1)
  }

  /** `param` holds exactly the first `n` pairs, each under its key. */
  ghost predicate Holds(param: map<string, Value>, opts: seq<(Opt, string)>, n: nat)
    requires n <= |opts|
  {
    && (forall i :: 0 <= i < n && Key(opts[i].0).Some? ==>
          Key(opts[i].0).value in param && param[Key(opts[i].0).value] == ValueOf(opts[i].0, opts[i].1))
    && (forall k :: k in param ==> exists i :: 0 <= i < n && Key(opts[i].0) == Some(k))
  }

  /** What each error says about the command line. */
  ghost predicate Explains(e: ArgError, opts: seq<(Opt, string)>, args: seq<string>) {
    match e
    case Unexpected => args != []
    case Duplicate(o) => exists i, j :: 0 <= i < j < |opts| && opts[i].0 == o && opts[j].0 == o
    case NotInteger => exists i :: 0 <= i < |opts| && opts[i].0 == Etc && ParseInt(opts[i].1).None?
    case Negative => exists i :: 0 <= i < |opts| && opts[i].0 == Etc && ParseInt(opts[i].1).Some? && ParseInt(opts[i].1).value < 0
    case EtcWithB => exists i, j :: 0 <= i < j < |opts| && opts[i].0 == FlagB && opts[j].0 == Etc
    case BWithEtc => exists i, j :: 0 <= i < j < |opts| && opts[i].0 == Etc && opts[j].0 == FlagB
    case Unknown(o) => Given(opts, |opts|, o) && o.Other?
    case HelpNeeded => Given(opts, |opts|, Help) && |opts| > 1
  }

  /**
   * check_opt from getopt's result on: the parameter dict of an accepted
   * command line, or the first error in the order the loop meets them.
   */
  method CheckOpt(opts: seq<(Opt, string)>, args: seq<string>)
    returns (r: Result<map<string, Value>, ArgError>)
    ensures r.Ok? <==> Accepted(opts, args)
    ensures r.Ok? ==> Holds(r.value, opts, |opts|) && |r.value| == |opts|
    ensures r.Err? ==> Explains(r.error, opts, args)
  {
    if args != [] {
      return Err(Unexpected);
    }
    var param: map<string, Value> := map[];
    for i := 0 to |opts|
      invariant Good(opts, i) && Holds(param, opts, i) && |param| == i
    {
      var stored := Store(param, opts, args, i);
      if stored.Err? {
        Rejects(stored.error, opts, args);
        return Err(stored.error);
      }
      param := stored.value;
    }
    HelpFound(param, opts);
    if "help" in param && |param| > 1 {
      return Err(HelpNeeded);
    }
    return Ok(param);
  }

  /**
   * One turn of check_opt's loop: the i-th pair stored under its key, or
   * the error it raises.
   */
  method Store(param: map<string, Value>, opts: seq<(Opt, string)>, args: seq<string>,
               i: nat)
    returns (r: Result<map<string, Value>, ArgError>)
    requires i < |opts| && Good(opts, i) && Holds(param, opts, i) && |param| == i
    ensures r.Ok? ==> Good(opts, i + 1) && Holds(r.value, opts, i + 1) && |r.value| == i + 1
    ensures r.Err? ==> Explains(r.error, opts, args)
  {
    var option, argument := opts[i].0, opts[i].1;
    if option.Other? {
      Refused(opts, args, i);
      return Err(Unknown(option));
    }
    var key := Key(option).value;
    if key in param {
      DuplicateFound(param, opts, args, i);
      return Err(Duplicate(option));
    }
    if option == Etc {
      r := StoreEtc(param, opts, args, i);
      return;
    }
    if option == FlagB && "etc" in param {
      Clash(param, opts, args, i, "etc", Etc);
      return Err(BWithEtc);
    }
    StillGood(param, opts, i);
    StillHolds(param, opts, i);
    return Ok(param[key := ValueOf(option, argument)]);
  }

  /** The --etc turn of the loop, once the key is known to be new: a count of at least 0, and no -b before it. */
  method StoreEtc(param: map<string, Value>, opts: seq<(Opt, string)>, args: seq<string>,
                  i: nat)
    returns (r: Result<map<string, Value>, ArgError>)
    requires i < |opts| && Good(opts, i) && Holds(param, opts, i) && |param| == i
    requires opts[i].0 == Etc && "etc" !in param
    ensures r.Ok? ==> Good(opts, i + 1) && Holds(r.value, opts, i + 1) && |r.value| == i + 1
    ensures r.Err? ==> Explains(r.error, opts, args)
  {
    var n := ParseInt(opts[i].1);
    if n.None? {
      Refused(opts, args, i);
      return Err(NotInteger);
    }
    if n.value < 0 {
      Refused(opts, args, i);
      return Err(Negative);
    }
    if "b" in param {
      Clash(param, opts, args, i, "b", FlagB);
      return Err(EtcWithB);
    }
    StillGood(param, opts, i);
    StillHolds(param, opts, i);
    return Ok(param["etc" := Number(n.value)]);
  }

  /** An unknown option, or an --etc argument that is not a count: the command line is refused. */
  lemma Refused(opts: seq<(Opt, string)>, args: seq<string>, i: nat)
    requires i < |opts|
    requires opts[i].0.Other? || (opts[i].0 == Etc && (ParseInt(opts[i].1).None? || ParseInt(opts[i].1).value < 0))
    ensures opts[i].0.Other? ==> Explains(Unknown(opts[i].0), opts, args)
    ensures opts[i].0 == Etc && ParseInt(opts[i].1).None? ==> Explains(NotInteger, opts, args)
    ensures opts[i].0 == Etc && ParseInt(opts[i].1).Some? ==> Explains(Negative, opts, args)
  {
  }

  /** The i-th option's key is already in `param`: an earlier pair had the same option. */
  lemma DuplicateFound(param: map<string, Value>, opts: seq<(Opt, string)>, args: seq<string>,
                       i: nat)
    requires i < |opts| && Holds(param, opts, i) && Key(opts[i].0).Some? && Key(opts[i].0).value in param
    ensures Explains(Duplicate(opts[i].0), opts, args)
  {
    var k :| 0 <= k < i && Key(opts[k].0) == Some(Key(opts[i].0).value);
    KeyInjective(opts[k].0, opts[i].0);
  }

  /**
   * -b and --etc together: the earlier one is stored under `key`, the
   * i-th pair is the other one.
   */
  lemma Clash(param: map<string, Value>, opts: seq<(Opt, string)>, args: seq<string>,
              i: nat, key: string, option: Opt)
    requires i < |opts| && Holds(param, opts, i) && key in param && Key(option) == Some(key)
    requires (option == FlagB && opts[i].0 == Etc) || (option == Etc && opts[i].0 == FlagB)
    ensures option == FlagB ==> Explains(EtcWithB, opts, args)
    ensures option == Etc ==> Explains(BWithEtc, opts, args)
  {
    var k :| 0 <= k < i && Key(opts[k].0) == Some(key);
    KeyInjective(opts[k].0, option);
  }

  /** Each error check_opt raises is a reason the command line is not accepted. */
  lemma Rejects(e: ArgError, opts: seq<(Opt, string)>, args: seq<string>)
    requires Explains(e, opts, args)
    ensures !Accepted(opts, args)
  {
    match e
    case Duplicate(o) =>
      var i, j :| 0 <= i < j < |opts| && opts[i].0 == o && opts[j].0 == o;
      assert Key(opts[i].0) == Key(opts[j].0);
    case EtcWithB =>
      var i, j :| 0 <= i < j < |opts| && opts[i].0 == FlagB && opts[j].0 == Etc;
      assert Given(opts, |opts|, FlagB) && Given(opts, |opts|, Etc);
    case BWithEtc =>
      var i, j :| 0 <= i < j < |opts| && opts[i].0 == Etc && opts[j].0 == FlagB;
      assert Given(opts, |opts|, FlagB) && Given(opts, |opts|, Etc);
    case _ =>
  }

  /** The i-th pair, new and accepted, extends the pairs the loop has accepted. */
  lemma StillGood(param: map<string, Value>, opts: seq<(Opt, string)>, i: nat)
    requires i < |opts| && Good(opts, i) && Holds(param, opts, i)
    requires Key(opts[i].0).Some? && Key(opts[i].0).value !in param
    requires opts[i].0 == Etc ==> ParseInt(opts[i].1).Some? && ParseInt(opts[i].1).value >= 0 && "b" !in param
    requires opts[i].0 == FlagB ==> "etc" !in param
    ensures Good(opts, i + 1)
  {
    StillUnique(param, opts, i);
    NoClash(param, opts, i);
  }

  /** A key not yet in `param` is new among the first i + 1 pairs. */
  lemma StillUnique(param: map<string, Value>, opts: seq<(Opt, string)>, i: nat)
    requires i < |opts| && Unique(opts, i) && Holds(param, opts, i)
    requires Key(opts[i].0).Some? && Key(opts[i].0).value !in param
    ensures Unique(opts, i + 1)
  {
    forall k | 0 <= k < i ensures Key(opts[k].0) != Key(opts[i].0) {
      KeyStored(param, opts, i, k);
    }
  }

  /** Neither -b after --etc nor --etc after -b: the first i + 1 pairs do not hold both. */
  lemma NoClash(param: map<string, Value>, opts: seq<(Opt, string)>, i: nat)
    requires i < |opts| && !(Given(opts, i, FlagB) && Given(opts, i, Etc)) && Holds(param, opts, i)
    requires opts[i].0 == Etc ==> "b" !in param
    requires opts[i].0 == FlagB ==> "etc" !in param
    ensures !(Given(opts, i + 1, FlagB) && Given(opts, i + 1, Etc))
  {
    if opts[i].0 == Etc {
      forall k | 0 <= k < i + 1 ensures opts[k].0 != FlagB {
        if k < i {
          KeyStored(param, opts, i, k);
        }
      }
    } else if opts[i].0 == FlagB {
      forall k | 0 <= k < i + 1 ensures opts[k].0 != Etc {
        if k < i {
          KeyStored(param, opts, i, k);
        }
      }
    } else {
      assert Given(opts, i + 1, FlagB) ==> Given(opts, i, FlagB);
      assert Given(opts, i + 1, Etc) ==> Given(opts, i, Etc);
    }
  }

  /** Each of the first `i` known options has its key in `param`. */
  lemma KeyStored(param: map<string, Value>, opts: seq<(Opt, string)>, i: nat, k: nat)
    requires i <= |opts| && Holds(param, opts, i) && k < i
    ensures Key(opts[k].0).Some? ==> Key(opts[k].0).value in param
  {
  }

  /** Storing the i-th pair under its key: the dict holds the first i + 1 pairs. */
  lemma StillHolds(param: map<string, Value>, opts: seq<(Opt, string)>, i: nat)
    requires i < |opts| && Holds(param, opts, i)
    requires Key(opts[i].0).Some? && Key(opts[i].0).value !in param
    ensures Holds(param[Key(opts[i].0).value := ValueOf(opts[i].0, opts[i].1)], opts, i + 1)
  {
  }

  /** After the loop: --help was given exactly when "help" is a key, and the keys count the pairs. */
  lemma HelpFound(param: map<string, Value>, opts: seq<(Opt, string)>)
    requires Holds(param, opts, |opts|)
    ensures "help" in param <==> Given(opts, |opts|, Help)
  {
    if "help" in param {
      var k :| 0 <= k < |opts| && Key(opts[k].0) == Some("help");
      KeyInjective(opts[k].0, Help);
    }
  }
}
