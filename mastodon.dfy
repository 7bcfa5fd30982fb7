/**
 * mastodon_archiver.py: archive every configured Mastodon account with the
 * `mastodon-archive` tool, then expire old statuses, favourites and
 * mentions, then write the HTML pages and the statistics.  Expiring only
 * acts for real with `-c`/`--confirm`; otherwise the tool is asked for a
 * dry run.
 *
 * The model is the list of shell commands the script hands to
 * `os.system`, in order.  The file system is given as the set of existing
 * paths and the settings files that load (with their accounts' users).
 */
module Mastodon {
  import opened PyText
  import opened CommandLine

  // ---------------------------------------------------------------------
  // Options
  // ---------------------------------------------------------------------

  const SHORT_OPTS := "hc"
  const LONG_OPTS := ["help", "confirm"]

  /** What the options decide: exit with a status, or go on (for real or not). */
  datatype Choice = Quit(code: int) | Go(confirm: bool)

  /** The option loop from `opts[0]` on: `-h` exits 0, `-c`/`--confirm` switches expiring on, `--help` is ignored. */
  function ReadOpts(opts: seq<Opt>, confirm: bool): (r: Choice)
    decreases |opts|
  {
    if opts == [] then Go(confirm)
    else if opts[0].name == "-h" then Quit(0)
    else ReadOpts(opts[1..], confirm || opts[0].name == "-c" || opts[0].name == "--confirm")
  }

  /** The options of `main`: a getopt error exits 2. */
  function Options(argv: seq<string>): Choice
  {
    match GetOpt(argv, SHORT_OPTS, LONG_OPTS)
    case GetoptError => Quit(2)
    case Parsed(opts, _) => ReadOpts(opts, false)
  }

  /**
   * The options go on exactly when no `-h` is among them, and expiring is
   * for real exactly when some `-c`/`--confirm` is.
   */
  lemma {:induction false} ReadOptsSpec(opts: seq<Opt>, confirm: bool)
    ensures ReadOpts(opts, confirm).Go? <==> forall i :: 0 <= i < |opts| ==> opts[i].name != "-h"
    ensures ReadOpts(opts, confirm).Go? ==>
      (ReadOpts(opts, confirm).confirm <==> confirm || exists i :: 0 <= i < |opts| && opts[i].name in {"-c", "--confirm"})
    ensures ReadOpts(opts, confirm).Quit? ==> ReadOpts(opts, confirm).code == 0
    decreases |opts|
  {
    if opts != [] {
      var next := confirm || opts[0].name == "-c" || opts[0].name == "--confirm";
      ReadOptsSpec(opts[1..], next);
      assert forall i :: 1 <= i < |opts| ==> opts[i] == opts[1..][i - 1];
      if ReadOpts(opts, confirm).Go? && ReadOpts(opts, confirm).confirm && !next {
        var i :| 0 <= i < |opts[1..]| && opts[1..][i].name in {"-c", "--confirm"};
        assert opts[i + 1].name in {"-c", "--confirm"};
      }
      if ReadOpts(opts, confirm).Go? && !ReadOpts(opts, confirm).confirm {
        assert opts[0].name !in {"-c", "--confirm"};
      }
    }
  }

  /** With no option at all the run is a dry run. */
  lemma OptionsNone()
    ensures Options([]) == Go(false)
  {
    GetOptEmpty(SHORT_OPTS, LONG_OPTS);
  }

  /** The method form of the option loop. */
  method ChooseMode(argv: seq<string>) returns (r: Choice)
    ensures r == Options(argv)
  {
    var parsed := GetOpt(argv, SHORT_OPTS, LONG_OPTS);
    if parsed.GetoptError? {
      return Quit(2);
    }
    var opts := parsed.opts;
    var confirm := false;
    for i := 0 to |opts|
      invariant ReadOpts(opts, false) == ReadOpts(opts[i..], confirm)
    {
      assert opts[i..][1..] == opts[i + 1..];
      if opts[i].name == "-h" {
        return Quit(0);
      } else if opts[i].name == "-c" || opts[i].name == "--confirm" {
        confirm := true;
      }
    }
    return Go(confirm);
  }

  // ---------------------------------------------------------------------
  // The settings file
  // ---------------------------------------------------------------------

  /** `../mastodon.json` when it exists, else `./mastodon.json`. */
  function SettingsPath(existing: set<string>): (path: string)
    ensures path == "../mastodon.json" <==> "../mastodon.json" in existing
    ensures path == "../mastodon.json" || path == "./mastodon.json"
  {
    if "../mastodon.json" in existing then "../mastodon.json" else "./mastodon.json"
  }

  // ---------------------------------------------------------------------
  // The commands
  // ---------------------------------------------------------------------

  /** `" ".join(words)`: the words of a command line. */
  function Unwords(words: seq<string>): string
    requires words != []
    decreases |words|
  {
    if |words| == 1 then words[0] else words[0] + " " + Unwords(words[1..])
  }

  /** One more word at the end. */
  lemma {:induction false} UnwordsSnoc(words: seq<string>, w: string)
    requires words != []
    ensures Unwords(words + [w]) == Unwords(words) + " " + w
    decreases |words|
  {
    if |words| > 1 {
      assert (words + [w])[1..] == words[1..] + [w];
      UnwordsSnoc(words[1..], w);
    } else {
      assert (words + [w])[1..] == [w];
    }
  }

  /** `confirm_cmd` */
  function ConfirmCmd(confirm: bool): string
  {
    if confirm then " --confirmed" else ""
  }

  const FLAG := "--confirmed"

  /** The seven loops of `main`, in their order. */
  datatype Phase = Archive | Media | ExpireStatuses | ExpireFavourites | ExpireMentions | Html | Report

  const PHASES := [Archive, Media, ExpireStatuses, ExpireFavourites, ExpireMentions, Html, Report]

  predicate IsExpire(p: Phase)
  {
    p == ExpireStatuses || p == ExpireFavourites || p == ExpireMentions
  }

  // The fixed words of each command, before the confirm flag and the user.
  const ARCHIVE_WORDS := ["mastodon-archive", "archive", "--with-followers", "--with-following", "--with-mentions", "--pace"]
  const MEDIA_WORDS := ["mastodon-archive", "media", "--pace"]
  const MEDIA_FAVOURITES_WORDS := ["mastodon-archive", "media", "--collection", "favourites", "--pace"]
  const MEDIA_BOOKMARKS_WORDS := ["mastodon-archive", "media", "--collection", "bookmarks", "--pace"]
  const STATUSES_WORDS := ["mastodon-archive", "expire", "--older-than", "8", "--collection", "statuses", "--pace"]
  const FAVOURITES_WORDS := ["mastodon-archive", "expire", "--older-than", "8", "--collection", "favourites"]
  const MENTIONS_WORDS := ["mastodon-archive", "expire", "--older-than", "8", "--collection", "mentions",
                          "--delete-other-notifications"]
  const HTML_WORDS := ["mastodon-archive", "html"]
  const REPORT_WORDS := ["mastodon-archive", "report", "--newer-than", "8"]

  /**
   * The commands one account gets in a phase (three for media), each as
   * its fixed words and its tail: the user, after the confirm word in the
   * expire phases (`--pace {confirm_cmd} {user}` for statuses, but
   * `--pace{confirm_cmd} {user}` for favourites and mentions).
   */
  function Shape(p: Phase, user: string, confirm: bool): (r: seq<(seq<string>, seq<string>)>)
    ensures r != [] && forall j :: 0 <= j < |r| ==> r[j].0 != [] && r[j].1 != [] && r[j].1[|r[j].1| - 1] == user
  {
    match p
    case Archive => [(ARCHIVE_WORDS, [user])]
    case Media => [(MEDIA_WORDS, [user]), (MEDIA_FAVOURITES_WORDS, [user]), (MEDIA_BOOKMARKS_WORDS, [user])]
    case ExpireStatuses => [(STATUSES_WORDS, [ConfirmCmd(confirm), user])]
    case ExpireFavourites => [(FAVOURITES_WORDS, ["--pace" + ConfirmCmd(confirm), user])]
    case ExpireMentions => [(MENTIONS_WORDS, ["--pace" + ConfirmCmd(confirm), user])]
    case Html => [(HTML_WORDS, [user])]
    case Report => [(REPORT_WORDS, [user])]
  }

  /** How many commands one account gets in a phase. */
  function Width(p: Phase): nat
  {
    if p == Media then 3 else 1
  }

  /** The commands one account gets in a phase. */
  function AccountCommands(p: Phase, user: string, confirm: bool): (r: seq<string>)
    ensures |r| == Width(p)
  {
    var sh := Shape(p, user, confirm);
    seq(|sh|, j requires 0 <= j < |sh| => Unwords(sh[j].0 + sh[j].1))
  }

  /** How many commands a phase issues for `n` accounts. */
  function Span(p: Phase, n: nat): nat
  {
    if p == Media then 3 * n else n
  }

  /** Where account `i`'s `j`-th command sits within its phase. */
  function Slot(p: Phase, i: nat, j: nat): nat
  {
    if p == Media then 3 * i + j else i + j
  }

  /** One phase: every account in configuration order. */
  function PhaseCommands(p: Phase, users: seq<string>, confirm: bool): (r: seq<string>)
    ensures |r| == Span(p, |users|)
    decreases |users|
  {
    if users == [] then []
    else PhaseCommands(p, users[..|users| - 1], confirm) + AccountCommands(p, users[|users| - 1], confirm)
  }

  /** Where account `i`'s `j`-th command of a phase sits. */
  lemma {:induction false} PhaseAt(p: Phase, users: seq<string>, confirm: bool, i: nat, j: nat)
    requires i < |users| && j < Width(p)
    ensures Slot(p, i, j) < |PhaseCommands(p, users, confirm)|
    ensures PhaseCommands(p, users, confirm)[Slot(p, i, j)] == AccountCommands(p, users[i], confirm)[j]
    decreases |users|
  {
    var front := users[..|users| - 1];
    if i < |users| - 1 {
      PhaseAt(p, front, confirm, i, j);
    }
  }

  /** Each phase's commands, for the given accounts. */
  function Block(users: seq<string>, confirm: bool): Phase -> seq<string>
  {
    p => PhaseCommands(p, users, confirm)
  }

  /** The blocks of the phases, one after the other. */
  function Concat(ps: seq<Phase>, f: Phase -> seq<string>): seq<string>
    decreases |ps|
  {
    if ps == [] then [] else Concat(ps[..|ps| - 1], f) + f(ps[|ps| - 1])
  }

  /** The total size of the blocks. */
  function Lengths(ps: seq<Phase>, f: Phase -> seq<string>): nat
    decreases |ps|
  {
    if ps == [] then 0 else Lengths(ps[..|ps| - 1], f) + |f(ps[|ps| - 1])|
  }

  lemma {:induction false} ConcatLength(ps: seq<Phase>, f: Phase -> seq<string>)
    ensures |Concat(ps, f)| == Lengths(ps, f)
    decreases |ps|
  {
    if ps != [] {
      ConcatLength(ps[..|ps| - 1], f);
    }
  }

  /** The loop over the phases adds one block at a time. */
  lemma ConcatSnoc(ps: seq<Phase>, f: Phase -> seq<string>, k: nat)
    requires k < |ps|
    ensures Concat(ps[..k + 1], f) == Concat(ps[..k], f) + f(ps[k])
  {
    var q := ps[..k + 1];
    assert q[..k] == ps[..k] && q[k] == ps[k];
  }

  lemma {:induction false} ConcatPrefixAt(ps: seq<Phase>, f: Phase -> seq<string>, idx: nat, k: nat, q: nat)
    requires idx < k <= |ps| && q < |f(ps[idx])|
    ensures Lengths(ps[..idx], f) + q < |Concat(ps[..k], f)|
    ensures Concat(ps[..k], f)[Lengths(ps[..idx], f) + q] == f(ps[idx])[q]
    decreases k
  {
    ConcatSnoc(ps, f, k - 1);
    if k - 1 == idx {
      ConcatLength(ps[..idx], f);
    } else {
      ConcatPrefixAt(ps, f, idx, k - 1, q);
    }
  }

  /** Block `ps[idx]` starts after the blocks of the phases before it. */
  lemma ConcatAt(ps: seq<Phase>, f: Phase -> seq<string>, idx: nat, q: nat)
    requires idx < |ps| && q < |f(ps[idx])|
    ensures Lengths(ps[..idx], f) + q < |Concat(ps, f)|
    ensures Concat(ps, f)[Lengths(ps[..idx], f) + q] == f(ps[idx])[q]
  {
    ConcatPrefixAt(ps, f, idx, |ps|, q);
    assert ps[..|ps|] == ps;
  }

  /** `mastodon-archive -h` first, then the seven phases. */
  function Plan(users: seq<string>, confirm: bool): (r: seq<string>)
  {
    ["mastodon-archive -h"] + Concat(PHASES, Block(users, confirm))
  }

  /** The position of a phase in the order of `main`. */
  function Rank(p: Phase): (k: nat)
  {
    match p
    case Archive => 0
    case Media => 1
    case ExpireStatuses => 2
    case ExpireFavourites => 3
    case ExpireMentions => 4
    case Html => 5
    case Report => 6
  }

  /** Where the phase starts in the plan, for `n` accounts. */
  function Offset(p: Phase, n: nat): nat
  {
    match p
    case Archive => 1
    case Media => 1 + n
    case ExpireStatuses => 1 + 4 * n
    case ExpireFavourites => 1 + 5 * n
    case ExpireMentions => 1 + 6 * n
    case Html => 1 + 7 * n
    case Report => 1 + 8 * n
  }

  lemma PrefixLengths(users: seq<string>, confirm: bool)
    ensures var f, n := Block(users, confirm), |users|;
      && Lengths(PHASES[..0], f) == 0 && Lengths(PHASES[..1], f) == n && Lengths(PHASES[..2], f) == 4 * n
      && Lengths(PHASES[..3], f) == 5 * n && Lengths(PHASES[..4], f) == 6 * n && Lengths(PHASES[..5], f) == 7 * n
      && Lengths(PHASES[..6], f) == 8 * n && Lengths(PHASES[..7], f) == 9 * n
  {
    var f, n := Block(users, confirm), |users|;
    forall k | 0 <= k < |PHASES|
      ensures |f(PHASES[k])| == (if k == 1 then 3 * n else n)
    {
      assert |PhaseCommands(PHASES[k], users, confirm)| == Span(PHASES[k], n);
    }
    SevenLengths(PHASES, f, n);
  }

  /** Seven blocks, the second of size `3n` and the others of size `n`. */
  lemma SevenLengths(ps: seq<Phase>, f: Phase -> seq<string>, n: nat)
    requires |ps| == 7 && forall k :: 0 <= k < 7 ==> |f(ps[k])| == (if k == 1 then 3 * n else n)
    ensures Lengths(ps[..0], f) == 0 && Lengths(ps[..1], f) == n && Lengths(ps[..2], f) == 4 * n
    ensures Lengths(ps[..3], f) == 5 * n && Lengths(ps[..4], f) == 6 * n && Lengths(ps[..5], f) == 7 * n
    ensures Lengths(ps[..6], f) == 8 * n && Lengths(ps[..7], f) == 9 * n
  {
    FirstLengths(ps, f, n);
    LengthsSnoc(ps, f, 4, n);
    LengthsSnoc(ps, f, 5, n);
    LengthsSnoc(ps, f, 6, n);
  }

  lemma FirstLengths(ps: seq<Phase>, f: Phase -> seq<string>, n: nat)
    requires |ps| == 7 && forall k :: 0 <= k < 7 ==> |f(ps[k])| == (if k == 1 then 3 * n else n)
    ensures Lengths(ps[..0], f) == 0 && Lengths(ps[..1], f) == n && Lengths(ps[..2], f) == 4 * n
    ensures Lengths(ps[..3], f) == 5 * n && Lengths(ps[..4], f) == 6 * n
  {
    LengthsSnoc(ps, f, 0, n);
    LengthsSnoc(ps, f, 1, 3 * n);
    LengthsSnoc(ps, f, 2, n);
    LengthsSnoc(ps, f, 3, n);
  }

  /** One more block adds its size. */
  lemma LengthsSnoc(ps: seq<Phase>, f: Phase -> seq<string>, k: nat, size: nat)
    requires k < |ps| && |f(ps[k])| == size
    ensures Lengths(ps[..k + 1], f) == Lengths(ps[..k], f) + size
  {
    assert ps[..k + 1][..k] == ps[..k];
  }

  /** The offsets are those of the phase order. */
  lemma OffsetRank(p: Phase, users: seq<string>, confirm: bool)
    ensures Rank(p) < |PHASES| && PHASES[Rank(p)] == p
    ensures Offset(p, |users|) == 1 + Lengths(PHASES[..Rank(p)], Block(users, confirm))
  {
    PrefixLengths(users, confirm);
  }

  /** The plan has `9n + 1` commands. */
  lemma PlanSize(users: seq<string>, confirm: bool)
    ensures |Plan(users, confirm)| == 9 * |users| + 1
  {
    PrefixLengths(users, confirm);
    ConcatLength(PHASES, Block(users, confirm));
    assert PHASES[..7] == PHASES;
  }

  /**
   * The plan's layout: each phase covers all accounts in configuration
   * order, and the phases come in the order archive, media, expire
   * statuses, expire favourites, expire mentions, html, report.
   */
  lemma PlanAt(users: seq<string>, confirm: bool, p: Phase, i: nat, j: nat)
    requires i < |users| && j < Width(p)
    ensures Offset(p, |users|) + Slot(p, i, j) < |Plan(users, confirm)|
    ensures Plan(users, confirm)[Offset(p, |users|) + Slot(p, i, j)] == AccountCommands(p, users[i], confirm)[j]
  {
    OffsetRank(p, users, confirm);
    PhaseAt(p, users, confirm, i, j);
    BlockAt(PHASES, Rank(p), users, confirm, Slot(p, i, j), Offset(p, |users|) + Slot(p, i, j));
  }

  /** A phase's block, behind the help command. */
  lemma BlockAt(ps: seq<Phase>, k: nat, users: seq<string>, confirm: bool, q: nat, at: nat)
    requires k < |ps| && q < |PhaseCommands(ps[k], users, confirm)|
    requires at == 1 + Lengths(ps[..k], Block(users, confirm)) + q
    ensures at < |["mastodon-archive -h"] + Concat(ps, Block(users, confirm))|
    ensures (["mastodon-archive -h"] + Concat(ps, Block(users, confirm)))[at] == PhaseCommands(ps[k], users, confirm)[q]
  {
    var f := Block(users, confirm);
    assert f(ps[k]) == PhaseCommands(ps[k], users, confirm);
    ConcatAt(ps, f, k, q);
    AfterHead("mastodon-archive -h", Concat(ps, f), at - 1);
  }

  /** Behind a first element, position `m` moves to `m + 1`. */
  lemma AfterHead(head: string, rest: seq<string>, m: nat)
    requires m < |rest|
    ensures 1 + m < |[head] + rest| && ([head] + rest)[1 + m] == rest[m]
  {
  }

  /** One command of an account: its words are the fixed words and the tail ending in the user. */
  lemma CommandWords(p: Phase, user: string, confirm: bool, j: nat) returns (fixed: seq<string>, tail: seq<string>)
    requires j < Width(p)
    ensures (fixed, tail) == Shape(p, user, confirm)[j]
    ensures fixed != [] && tail != [] && tail[|tail| - 1] == user
    ensures AccountCommands(p, user, confirm)[j] == Unwords(fixed + tail)
  {
    fixed := Shape(p, user, confirm)[j].0;
    tail := Shape(p, user, confirm)[j].1;
  }

  /** Every command but the first ends with a space and its account's user. */
  lemma AccountCommandEnds(p: Phase, user: string, confirm: bool, j: nat)
    requires j < Width(p)
    ensures EndsWith(AccountCommands(p, user, confirm)[j], " " + user)
  {
    var fixed, tail := CommandWords(p, user, confirm, j);
    UnwordsEnds(fixed + tail, user);
  }

  /** A command line of two words or more ends with a space and its last word. */
  lemma UnwordsEnds(ws: seq<string>, last: string)
    requires |ws| >= 2 && ws[|ws| - 1] == last
    ensures EndsWith(Unwords(ws), " " + last)
  {
    var front := ws[..|ws| - 1];
    assert ws == front + [last];
    UnwordsSnoc(front, last);
    EndsWithSeparated(Unwords(front), ' ', last);
  }

  lemma EndsWithSeparated(a: string, c: char, b: string)
    ensures EndsWith(a + [c] + b, [c] + b)
  {
    assert (a + [c] + b)[|a|..] == [c] + b;
  }

  // ---------------------------------------------------------------------
  // Where `--confirmed` appears
  // ---------------------------------------------------------------------

  /** No word holds the flag, so the command line does not either. */
  lemma {:induction false} UnwordsWithout(words: seq<string>)
    requires words != [] && forall w :: w in words ==> !Occurs(w, FLAG)
    ensures !Occurs(Unwords(words), FLAG)
    decreases |words|
  {
    if |words| > 1 {
      UnwordsWithout(words[1..]);
      assert words[0] in words;
      assert words[0] + " " + Unwords(words[1..]) == words[0] + [' '] + Unwords(words[1..]);
      OccursAcrossSeparator(words[0], ' ', Unwords(words[1..]), FLAG);
    }
  }

  /** An occurrence inside a part is an occurrence in the whole. */
  lemma OccursInside(a: string, w: string, b: string, pat: string)
    requires Occurs(w, pat)
    ensures Occurs(a + w + b, pat)
  {
    var m :| 0 <= m <= |w| - |pat| && OccursAt(w, pat, m);
    assert (a + w + b)[|a| + m..|a| + m + |pat|] == w[m..m + |pat|];
    assert OccursAt(a + w + b, pat, |a| + m);
  }

  const SHORT_WORDS := ["archive", "media", "expire", "8", "--pace", "favourites", "bookmarks", "statuses",
                        "mentions", "html", "report", ""]

  predicate CleanWords(ws: seq<string>)
  {
    forall w :: w in ws ==> !Occurs(w, FLAG)
  }

  lemma ShortWordsClean()
    ensures forall w :: w in SHORT_WORDS ==> !Occurs(w, FLAG)
  {
    forall w | w in SHORT_WORDS
      ensures !Occurs(w, FLAG)
    {
      TooShort(w, FLAG);
    }
  }

  lemma MastodonArchiveClean()
    ensures !Occurs("mastodon-archive", FLAG)
  {
    AbsentChar("mastodon-archive", FLAG, 'f');
  }

  lemma OlderThanClean()
    ensures !Occurs("--older-than", FLAG)
  {
    AbsentChar("--older-than", FLAG, 'c');
  }

  lemma CollectionClean()
    ensures !Occurs("--collection", FLAG)
  {
    AbsentChar("--collection", FLAG, 'f');
  }

  lemma WithFollowersClean()
    ensures !Occurs("--with-followers", FLAG)
  {
    AbsentChar("--with-followers", FLAG, 'c');
  }

  lemma WithFollowingClean()
    ensures !Occurs("--with-following", FLAG)
  {
    AbsentChar("--with-following", FLAG, 'c');
  }

  lemma WithMentionsClean()
    ensures !Occurs("--with-mentions", FLAG)
  {
    AbsentChar("--with-mentions", FLAG, 'c');
  }

  lemma DeleteOtherNotificationsClean()
    ensures !Occurs("--delete-other-notifications", FLAG)
  {
    AbsentChar("--delete-other-notifications", FLAG, 'm');
  }

  lemma NewerThanClean()
    ensures !Occurs("--newer-than", FLAG)
  {
    AbsentChar("--newer-than", FLAG, 'c');
  }

  lemma LongWordsClean()
    ensures !Occurs("mastodon-archive", FLAG) && !Occurs("--older-than", FLAG) && !Occurs("--collection", FLAG)
    ensures !Occurs("--with-followers", FLAG) && !Occurs("--with-following", FLAG) && !Occurs("--with-mentions", FLAG)
    ensures !Occurs("--delete-other-notifications", FLAG) && !Occurs("--newer-than", FLAG)
  {
    MastodonArchiveClean();
    OlderThanClean();
    CollectionClean();
    WithFollowersClean();
    WithFollowingClean();
    WithMentionsClean();
    DeleteOtherNotificationsClean();
    NewerThanClean();
  }

  /** The fixed words of every command: none holds the flag. */
  lemma FixedWordsClean(p: Phase, user: string, confirm: bool, j: nat)
    requires j < Width(p)
    ensures CleanWords(Shape(p, user, confirm)[j].0)
  {
    ShortWordsClean();
    LongWordsClean();
  }

  /**
   * A command holds `--confirmed` exactly when it is an expire command of
   * a confirmed run (given that the user name does not hold it).
   */
  lemma AccountCommandFlag(p: Phase, user: string, confirm: bool, j: nat)
    requires j < Width(p) && !Occurs(user, FLAG)
    ensures Occurs(AccountCommands(p, user, confirm)[j], FLAG) <==> IsExpire(p) && confirm
  {
    if IsExpire(p) && confirm {
      FlagOn(p, user, j);
    } else {
      FlagOff(p, user, confirm, j);
    }
  }

  /** The word that carries the flag in an expire command. */
  lemma FlagWord()
    ensures Occurs(ConfirmCmd(true), FLAG) && Occurs("--pace" + ConfirmCmd(true), FLAG)
  {
    var x := "--pace" + ConfirmCmd(true);
    assert x[7..7 + |FLAG|] == FLAG;
    assert OccursAt(x, FLAG, 7);
    assert OccursAt(ConfirmCmd(true), FLAG, 1);
  }

  /** A flagged word before the last one flags the whole command line. */
  lemma FlagInWords(fixed: seq<string>, x: string, user: string)
    requires fixed != [] && Occurs(x, FLAG)
    ensures Occurs(Unwords(fixed + [x, user]), FLAG)
  {
    UnwordsSnoc(fixed, x);
    assert fixed + [x, user] == (fixed + [x]) + [user];
    UnwordsSnoc(fixed + [x], user);
    OccursInside(Unwords(fixed) + " ", x, " " + user, FLAG);
    assert Unwords(fixed + [x, user]) == (Unwords(fixed) + " ") + x + (" " + user);
  }

  lemma FlagOn(p: Phase, user: string, j: nat)
    requires IsExpire(p) && j < Width(p)
    ensures Occurs(AccountCommands(p, user, true)[j], FLAG)
  {
    var fixed, tail := CommandWords(p, user, true, j);
    FlagWord();
    assert tail == [tail[0], user] && Occurs(tail[0], FLAG);
    FlagInWords(fixed, tail[0], user);
  }

  lemma FlagOff(p: Phase, user: string, confirm: bool, j: nat)
    requires j < Width(p) && !Occurs(user, FLAG) && !(IsExpire(p) && confirm)
    ensures !Occurs(AccountCommands(p, user, confirm)[j], FLAG)
  {
    var fixed, tail := CommandWords(p, user, confirm, j);
    FixedWordsClean(p, user, confirm, j);
    ShortWordsClean();
    assert "--pace" + "" == "--pace";
    assert CleanWords(tail);
    UnwordsWithout(fixed + tail);
  }

  /**
   * The destructive flag: in the plan it appears only in the three expire
   * phases and only when confirmed, and then in every expire command.
   */
  lemma PlanFlag(users: seq<string>, confirm: bool, p: Phase, i: nat, j: nat)
    requires i < |users| && j < Width(p) && forall u :: u in users ==> !Occurs(u, FLAG)
    ensures var k := Offset(p, |users|) + Slot(p, i, j);
      k < |Plan(users, confirm)| && (Occurs(Plan(users, confirm)[k], FLAG) <==> IsExpire(p) && confirm)
  {
    PlanAt(users, confirm, p, i, j);
    assert users[i] in users;
    AccountCommandFlag(p, users[i], confirm, j);
  }

  /** The phase and the account behind a position of the plan. */
  lemma PlanPosition(n: nat, k: nat) returns (p: Phase, i: nat, j: nat)
    requires 1 <= k < 9 * n + 1
    ensures i < n && j < Width(p) && k == Offset(p, n) + Slot(p, i, j)
    ensures IsExpire(p) <==> 1 + 4 * n <= k < 1 + 7 * n
  {
    p := if k < 1 + n then Archive else if k < 1 + 4 * n then Media
      else if k < 1 + 5 * n then ExpireStatuses else if k < 1 + 6 * n then ExpireFavourites
      else if k < 1 + 7 * n then ExpireMentions else if k < 1 + 8 * n then Html else Report;
    var rel := k - Offset(p, n);
    if p == Media {
      i, j := rel / 3, rel % 3;
    } else {
      i, j := rel, 0;
    }
  }

  /** The first command is the help command, which never holds the flag. */
  lemma HelpClean(users: seq<string>, confirm: bool)
    ensures |Plan(users, confirm)| > 0 && !Occurs(Plan(users, confirm)[0], FLAG)
  {
    AbsentChar("mastodon-archive -h", FLAG, 'f');
  }

  /**
   * Over the whole plan: a command holds the flag exactly when the run is
   * confirmed and the command lies in the expire phases.
   */
  lemma PlanFlagAnywhere(users: seq<string>, confirm: bool, k: nat)
    requires k < |Plan(users, confirm)| && forall u :: u in users ==> !Occurs(u, FLAG)
    ensures Occurs(Plan(users, confirm)[k], FLAG) <==> confirm && 1 + 4 * |users| <= k < 1 + 7 * |users|
  {
    PlanSize(users, confirm);
    if k == 0 {
      HelpClean(users, confirm);
    } else {
      var p, i, j := PlanPosition(|users|, k);
      PlanFlag(users, confirm, p, i, j);
    }
  }

  // ---------------------------------------------------------------------
  // The run
  // ---------------------------------------------------------------------

  /**
   * `main`: the exit status and the commands given to `os.system`. The
   * options may exit first; a settings file that cannot be loaded (the
   * chosen path is not in `loads`) ends the run with status 0 and no
   * command.
   */
  function Run(argv: seq<string>, existing: set<string>, loads: map<string, seq<string>>): (int, seq<string>)
  {
    match Options(argv)
    case Quit(code) => (code, [])
    case Go(confirm) =>
      var path := SettingsPath(existing);
      if path !in loads then (0, []) else (0, Plan(loads[path], confirm))
  }

  /** `../mastodon.json` wins when it exists, even when it does not load: there is no fallback. */
  lemma NoFallback(argv: seq<string>, existing: set<string>, loads: map<string, seq<string>>)
    requires Options(argv).Go? && "../mastodon.json" in existing && "../mastodon.json" !in loads
    ensures Run(argv, existing, loads) == (0, [])
  {
  }

  /** A run without `-c`/`--confirm` never passes the flag. */
  lemma RunDry(argv: seq<string>, existing: set<string>, loads: map<string, seq<string>>, k: nat)
    requires Options(argv) == Go(false)
    requires forall path, u :: path in loads && u in loads[path] ==> !Occurs(u, FLAG)
    requires k < |Run(argv, existing, loads).1|
    ensures !Occurs(Run(argv, existing, loads).1[k], FLAG)
  {
    PlanFlagAnywhere(loads[SettingsPath(existing)], false, k);
  }

  /** The loop over the accounts adds one account at a time. */
  lemma PhaseCommandsSnoc(p: Phase, users: seq<string>, confirm: bool, i: nat)
    requires i < |users|
    ensures PhaseCommands(p, users[..i + 1], confirm) == PhaseCommands(p, users[..i], confirm) + AccountCommands(p, users[i], confirm)
  {
    var u := users[..i + 1];
    assert u[..i] == users[..i] && u[i] == users[i];
  }

  /** One phase: the loop over the accounts. */
  method RunPhase(p: Phase, users: seq<string>, confirm: bool) returns (commands: seq<string>)
    ensures commands == PhaseCommands(p, users, confirm)
  {
    commands := [];
    for i := 0 to |users|
      invariant commands == PhaseCommands(p, users[..i], confirm)
    {
      PhaseCommandsSnoc(p, users, confirm, i);
      commands := commands + AccountCommands(p, users[i], confirm);
    }
    assert users[..|users|] == users;
  }

  /** The phases one after the other, in the order given. */
  method RunPhases(ps: seq<Phase>, users: seq<string>, confirm: bool) returns (commands: seq<string>)
    ensures commands == Concat(ps, Block(users, confirm))
  {
    commands := [];
    for k := 0 to |ps|
      invariant commands == Concat(ps[..k], Block(users, confirm))
    {
      var more := RunPhase(ps[k], users, confirm);
      ConcatSnoc(ps, Block(users, confirm), k);
      commands := commands + more;
    }
    assert ps[..|ps|] == ps;
  }

  /** `main`: options, settings, then the help command and the seven phases. */
  method Archiver(argv: seq<string>, existing: set<string>, loads: map<string, seq<string>>) returns (code: int, commands: seq<string>)
    ensures (code, commands) == Run(argv, existing, loads)
  {
    var choice := ChooseMode(argv);
    if choice.Quit? {
      return choice.code, [];
    }
    var path := SettingsPath(existing);
    if path !in loads {
      return 0, [];
    }
    var phases := RunPhases(PHASES, loads[path], choice.confirm);
    return 0, ["mastodon-archive -h"] + phases;
  }
}
