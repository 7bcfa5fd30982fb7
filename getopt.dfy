/**
 * Python's `getopt.getopt(args, shortopts, longopts)`, which every script
 * here uses for its command line.
 *
 * Parsing stops at the first argument that does not start with `-` (or is
 * `-` itself); `--` ends the options and is dropped.  A long option may be
 * abbreviated to any unique prefix; `name=` in `longopts` means the option
 * takes an argument, either after `=` or as the next argument.  A short
 * option followed by `:` in `shortopts` takes the rest of its cluster or,
 * when that is empty, the next argument.  Everything else raises
 * `GetoptError`.
 */
module CommandLine {
  import opened PyText

  /** One `(opt, value)` pair: `opt` keeps its dashes ("-i", "--in"). */
  datatype Opt = Opt(name: string, arg: string)

  datatype Parsed = Parsed(opts: seq<Opt>, args: seq<string>) | GetoptError

  /** `shortopts` declares the option letter `c` (a `:` is never a letter). */
  predicate ShortDeclared(c: char, shortopts: string)
  {
    c != ':' && c in shortopts
  }

  /** `longopts` declares `name`, with or without a trailing `=`. */
  predicate LongDeclared(name: string, longopts: seq<string>)
  {
    name in longopts || name + "=" in longopts
  }

  /** Every pair names an option that the option strings declare. */
  predicate AllDeclared(opts: seq<Opt>, shortopts: string, longopts: seq<string>)
  {
    forall o :: o in opts ==>
      (|o.name| == 2 && o.name[0] == '-' && ShortDeclared(o.name[1], shortopts))
      || (StartsWith(o.name, "--") && LongDeclared(o.name[2..], longopts))
  }

  /** `short_has_arg`: whether letter `c` takes an argument; None for an unknown letter. */
  function ShortHasArg(c: char, shortopts: string): (r: Option<bool>)
    ensures r.Some? <==> ShortDeclared(c, shortopts)
  {
    ShortHasArgFrom(c, shortopts, 0)
  }

  function ShortHasArgFrom(c: char, shortopts: string, i: nat): (r: Option<bool>)
    ensures r.Some? <==> c != ':' && exists j :: i <= j < |shortopts| && shortopts[j] == c
    decreases |shortopts| - i
  {
    if i >= |shortopts| then None
    else if c == shortopts[i] && c != ':' then Some(i + 1 < |shortopts| && shortopts[i + 1] == ':')
    else ShortHasArgFrom(c, shortopts, i + 1)
  }

  /** The declared long options that start with `opt`, in declaration order. */
  function Possibilities(opt: string, longopts: seq<string>): (r: seq<string>)
    ensures forall o :: o in r <==> o in longopts && StartsWith(o, opt)
  {
    if longopts == [] then []
    else (if StartsWith(longopts[0], opt) then [longopts[0]] else []) + Possibilities(opt, longopts[1..])
  }

  /**
   * `long_has_args`: whether `opt` takes an argument and the full name it
   * stands for; None when no option or more than one option fits.
   */
  function LongHasArgs(opt: string, longopts: seq<string>): (r: Option<(bool, string)>)
    ensures r.Some? ==> LongDeclared(r.value.1, longopts) && StartsWith(r.value.1, opt)
    ensures opt in longopts ==> r == Some((false, opt))
    ensures opt !in longopts && opt + "=" in longopts ==> r == Some((true, opt))
  {
    var possibilities := Possibilities(opt, longopts);
    if possibilities == [] then None
    else if opt in possibilities then Some((false, opt))
    else if opt + "=" in possibilities then Some((true, opt))
    else if |possibilities| > 1 then None
    else
      var unique := possibilities[0];
      assert unique in possibilities;
      if EndsWith(unique, "=") then
        assert unique[..|unique| - 1] + "=" == unique;
        assert unique[..|opt|] == opt && unique != opt;
        assert unique[..|unique| - 1][..|opt|] == unique[..|opt|];
        Some((true, unique[..|unique| - 1]))
      else Some((false, unique))
  }

  function IndexOf(s: string, c: char): (r: Option<nat>)
    ensures r.None? <==> c !in s
    ensures r.Some? ==> r.value < |s| && s[r.value] == c && c !in s[..r.value]
  {
    if s == [] then None
    else if s[0] == c then Some(0)
    else match IndexOf(s[1..], c)
      case None => None
      case Some(k) => assert s[..k + 1] == [s[0]] + s[1..][..k]; Some(k + 1)
  }

  /** `do_longs` for the text after `--`; returns the pair and the remaining arguments. */
  function DoLongs(text: string, longopts: seq<string>, rest: seq<string>): (r: Option<(Opt, seq<string>)>)
    ensures r.Some? ==> |r.value.1| <= |rest|
    ensures r.Some? ==> StartsWith(r.value.0.name, "--") && LongDeclared(r.value.0.name[2..], longopts)
  {
    var (opt, optarg) := match IndexOf(text, '=')
      case None => (text, None)
      case Some(i) => (text[..i], Some(text[i + 1..]));
    match LongHasArgs(opt, longopts)
    case None => None
    case Some((hasArg, name)) =>
      assert ("--" + name)[2..] == name;
      if hasArg then
        if optarg.Some? then Some((Opt("--" + name, optarg.value), rest))
        else if rest == [] then None
        else Some((Opt("--" + name, rest[0]), rest[1..]))
      else if optarg.Some? then None
      else Some((Opt("--" + name, ""), rest))
  }

  /** `do_shorts` for a cluster of letters after `-`. */
  function DoShorts(cluster: string, shortopts: string, rest: seq<string>): (r: Option<(seq<Opt>, seq<string>)>)
    ensures r.Some? ==> |r.value.1| <= |rest|
    ensures r.Some? ==> forall o :: o in r.value.0 ==>
      |o.name| == 2 && o.name[0] == '-' && ShortDeclared(o.name[1], shortopts)
    decreases |cluster|
  {
    if cluster == [] then Some(([], rest))
    else
      var c := cluster[0];
      match ShortHasArg(c, shortopts)
      case None => None
      case Some(hasArg) =>
        if hasArg then
          if |cluster| > 1 then Some(([Opt(['-', c], cluster[1..])], rest))
          else if rest == [] then None
          else Some(([Opt(['-', c], rest[0])], rest[1..]))
        else
          match DoShorts(cluster[1..], shortopts, rest)
          case None => None
          case Some((more, left)) => Some(([Opt(['-', c], "")] + more, left))
  }

  /** `getopt.getopt(args, shortopts, longopts)` */
  function GetOpt(args: seq<string>, shortopts: string, longopts: seq<string>): (r: Parsed)
    decreases |args|
  {
    if args == [] || !StartsWith(args[0], "-") || args[0] == "-" then Parsed([], args)
    else if args[0] == "--" then Parsed([], args[1..])
    else if StartsWith(args[0], "--") then
      match DoLongs(args[0][2..], longopts, args[1..])
      case None => GetoptError
      case Some((o, left)) =>
        match GetOpt(left, shortopts, longopts)
        case GetoptError => GetoptError
        case Parsed(opts, free) => Parsed([o] + opts, free)
    else
      match DoShorts(args[0][1..], shortopts, args[1..])
      case None => GetoptError
      case Some((os, left)) =>
        match GetOpt(left, shortopts, longopts)
        case GetoptError => GetoptError
        case Parsed(opts, free) => Parsed(os + opts, free)
  }

  /** getopt only ever returns options that the option strings declare. */
  lemma {:induction false} GetOptDeclared(args: seq<string>, shortopts: string, longopts: seq<string>)
    ensures GetOpt(args, shortopts, longopts).Parsed? ==>
      AllDeclared(GetOpt(args, shortopts, longopts).opts, shortopts, longopts)
    decreases |args|
  {
    if args == [] || !StartsWith(args[0], "-") || args[0] == "-" || args[0] == "--" {
    } else if StartsWith(args[0], "--") {
      match DoLongs(args[0][2..], longopts, args[1..])
      case None =>
      case Some((o, left)) => GetOptDeclared(left, shortopts, longopts);
    } else {
      match DoShorts(args[0][1..], shortopts, args[1..])
      case None =>
      case Some((os, left)) => GetOptDeclared(left, shortopts, longopts);
    }
  }

  /** The free arguments getopt hands back are a suffix of its input. */
  lemma {:induction false} GetOptFreeArgsSuffix(args: seq<string>, shortopts: string, longopts: seq<string>)
    ensures GetOpt(args, shortopts, longopts).Parsed? ==>
      var free := GetOpt(args, shortopts, longopts).args;
      |free| <= |args| && free == args[|args| - |free|..]
    decreases |args|
  {
    if args == [] || !StartsWith(args[0], "-") || args[0] == "-" || args[0] == "--" {
    } else if StartsWith(args[0], "--") {
      match DoLongs(args[0][2..], longopts, args[1..])
      case None =>
      case Some((o, left)) =>
        DoLongsSuffix(args[0][2..], longopts, args[1..]);
        GetOptFreeArgsSuffix(left, shortopts, longopts);
    } else {
      match DoShorts(args[0][1..], shortopts, args[1..])
      case None =>
      case Some((os, left)) =>
        DoShortsSuffix(args[0][1..], shortopts, args[1..]);
        GetOptFreeArgsSuffix(left, shortopts, longopts);
    }
  }

  lemma DoLongsSuffix(text: string, longopts: seq<string>, rest: seq<string>)
    ensures DoLongs(text, longopts, rest).Some? ==>
      var left := DoLongs(text, longopts, rest).value.1;
      left == rest[|rest| - |left|..]
  {
  }

  lemma {:induction false} DoShortsSuffix(cluster: string, shortopts: string, rest: seq<string>)
    ensures DoShorts(cluster, shortopts, rest).Some? ==>
      var left := DoShorts(cluster, shortopts, rest).value.1;
      left == rest[|rest| - |left|..]
    decreases |cluster|
  {
    if cluster != [] && ShortHasArg(cluster[0], shortopts) == Some(false) {
      DoShortsSuffix(cluster[1..], shortopts, rest);
    }
  }

  /** An empty command line yields no options at all. */
  lemma GetOptEmpty(shortopts: string, longopts: seq<string>)
    ensures GetOpt([], shortopts, longopts) == Parsed([], [])
  {
  }

  /** `-x value` for a letter declared with `:` yields exactly that one pair. */
  lemma {:induction false} GetOptShortWithArg(c: char, value: string, shortopts: string, longopts: seq<string>)
    requires c != '-' && ShortHasArg(c, shortopts) == Some(true)
    ensures GetOpt([['-', c], value], shortopts, longopts) == Parsed([Opt(['-', c], value)], [])
  {
    var args := [['-', c], value];
    assert StartsWith(args[0], "-") && args[0] != "-";
    assert !StartsWith(args[0], "--") by {
      assert args[0][1] == c;
    }
    assert args[0][1..] == [c];
    assert DoShorts([c], shortopts, args[1..]) == Some(([Opt(['-', c], value)], []));
    assert GetOpt([], shortopts, longopts) == Parsed([], []);
  }
}
