/**
 * add_keyphrases_to_jekyll_blog_post.py: replace the `tags` of a Jekyll
 * post's front matter with the key phrases found in its text, written in
 * PascalCase.  The script checks its `-i` path, decides whether to
 * overwrite the tags already there (asking the user when there are some),
 * cleans the text and stores one tag per key phrase.
 *
 * The key phrases (from KeyBERT) and the user's answer are inputs; the
 * post is its front matter and its content.
 */
module Keyphrases {
  import opened PyText
  import opened CommandLine

  // ---------------------------------------------------------------------
  // The command line
  // ---------------------------------------------------------------------

  const SHORT_OPTS := "hi:"
  const LONG_OPTS := ["help", "in="]

  /** How the command line ends: an exit status, the post to open, or no path at all. */
  datatype Start = Exit(code: int) | Open(path: string) | NoInput

  /** `re.search(r'.md$', path)` finds a match. */
  predicate IsMarkdown(path: string)
  {
    DotSuffixEnd(path, "md").Some?
  }

  /** The `.` is not escaped: any character but a newline may stand before `md`. */
  lemma MarkdownAnyDot(stem: string, c: char)
    requires c != '\n'
    ensures IsMarkdown(stem + [c] + "md")
  {
    var p := stem + [c] + "md";
    assert p[|p| - 2..] == "md" && p[|p| - 3] == c;
    assert DotSuffixAt(p, "md", |p|);
  }

  /** An accepted path ends in `md`, or in `md` and one final newline. */
  lemma MarkdownEnds(path: string)
    requires IsMarkdown(path)
    ensures EndsWith(path, "md") || EndsWith(path, "md\n")
  {
    var e := DotSuffixEnd(path, "md").value;
    if e == |path| - 1 {
      assert path[|path| - 3..] == path[e - 2..e] + [path[|path| - 1]];
    }
  }

  predicate IsInput(o: Opt)
  {
    o.name == "-i" || o.name == "--in"
  }

  /**
   * The option loop of `main` from option `opts[0]` on, with the path
   * taken so far: `-h` exits 0, an `-i`/`--in` whose path is not markdown
   * exits 2, any other `-i` replaces the path, `--help` is ignored.
   */
  function ReadOpts(opts: seq<Opt>, path: Option<string>): Start
    decreases |opts|
  {
    if opts == [] then (if path.None? then NoInput else Open(path.value))
    else if opts[0].name == "-h" then Exit(0)
    else if IsInput(opts[0]) then
      (if IsMarkdown(opts[0].arg) then ReadOpts(opts[1..], Some(opts[0].arg)) else Exit(2))
    else ReadOpts(opts[1..], path)
  }

  /** The command-line handling of `main`: a getopt error or no option at all exits 2. */
  function Launch(argv: seq<string>): Start
  {
    match GetOpt(argv, SHORT_OPTS, LONG_OPTS)
    case GetoptError => Exit(2)
    case Parsed(opts, _) => if opts == [] then Exit(2) else ReadOpts(opts, None)
  }

  /** The path of the last `-i`/`--in`, if any. */
  function LastInput(opts: seq<Opt>): (r: Option<string>)
    ensures r.None? <==> forall i :: 0 <= i < |opts| ==> !IsInput(opts[i])
    decreases |opts|
  {
    if opts == [] then None
    else if IsInput(opts[|opts| - 1]) then Some(opts[|opts| - 1].arg)
    else LastInput(opts[..|opts| - 1])
  }

  /**
   * A post is opened only when no `-h` came first and every path given was
   * markdown; it is the last path given (or the one carried in).
   */
  lemma {:induction false} ReadOptsOpens(opts: seq<Opt>, path: Option<string>)
    requires path.Some? ==> IsMarkdown(path.value)
    ensures ReadOpts(opts, path).Open? ==>
      && IsMarkdown(ReadOpts(opts, path).path)
      && (forall i :: 0 <= i < |opts| ==> opts[i].name != "-h" && (IsInput(opts[i]) ==> IsMarkdown(opts[i].arg)))
      && (LastInput(opts).Some? || path.Some?)
      && ReadOpts(opts, path).path == (if LastInput(opts).Some? then LastInput(opts).value else path.value)
    decreases |opts|
  {
    if opts != [] && opts[0].name != "-h" && (!IsInput(opts[0]) || IsMarkdown(opts[0].arg)) {
      var next := if IsInput(opts[0]) then Some(opts[0].arg) else path;
      ReadOptsOpens(opts[1..], next);
      if ReadOpts(opts, path).Open? {
        forall i | 0 <= i < |opts|
          ensures opts[i].name != "-h" && (IsInput(opts[i]) ==> IsMarkdown(opts[i].arg))
        {
          if i > 0 {
            assert opts[i] == opts[1..][i - 1];
          }
        }
        LastInputFront(opts);
      }
    }
  }

  lemma {:induction false} LastInputFront(opts: seq<Opt>)
    requires opts != []
    ensures LastInput(opts) == if LastInput(opts[1..]).Some? then LastInput(opts[1..])
      else if IsInput(opts[0]) then Some(opts[0].arg) else None
    decreases |opts|
  {
    if |opts| > 1 && !IsInput(opts[|opts| - 1]) {
      LastInputFront(opts[..|opts| - 1]);
      assert opts[..|opts| - 1][1..] == opts[1..][..|opts[1..]| - 1];
    }
  }

  /** `-i path` alone: the post is opened exactly when the path is markdown. */
  lemma LaunchOne(path: string)
    ensures Launch(["-i", path]) == if IsMarkdown(path) then Open(path) else Exit(2)
  {
    assert ShortHasArg('i', SHORT_OPTS) == Some(true);
    GetOptShortWithArg('i', path, SHORT_OPTS, LONG_OPTS);
    assert ['-', 'i'] == "-i" && "-i" != "-h";
    var opts := [Opt("-i", path)];
    assert opts[1..] == [];
    assert ReadOpts(opts, None) == if IsMarkdown(path) then ReadOpts([], Some(path)) else Exit(2);
  }

  /** No argument at all exits 2. */
  lemma LaunchNothing()
    ensures Launch([]) == Exit(2)
  {
    GetOptEmpty(SHORT_OPTS, LONG_OPTS);
  }

  /** The command-line handling, option by option. */
  method ChoosePost(argv: seq<string>) returns (r: Start)
    ensures r == Launch(argv)
  {
    var parsed := GetOpt(argv, SHORT_OPTS, LONG_OPTS);
    if parsed.GetoptError? || parsed.opts == [] {
      return Exit(2);
    }
    var opts := parsed.opts;
    var path: Option<string> := None;
    for i := 0 to |opts|
      invariant ReadOpts(opts, None) == ReadOpts(opts[i..], path)
    {
      assert opts[i..][1..] == opts[i + 1..];
      var o := opts[i];
      if o.name == "-h" {
        return Exit(0);
      } else if o.name == "-i" || o.name == "--in" {
        path := Some(o.arg);
        if !IsMarkdown(o.arg) {
          return Exit(2);
        }
      }
    }
    // `frontmatter.load(None)` raises when no path was given
    if path.None? {
      return NoInput;
    }
    return Open(path.value);
  }

  // ---------------------------------------------------------------------
  // Whether to overwrite the tags
  // ---------------------------------------------------------------------

  /** A front-matter value, as far as `len()` is concerned. */
  datatype Yaml =
    | YNull
    | YBool(b: bool)
    | YNumber(n: int)
    | YString(s: string)
    | YList(items: seq<Yaml>)
    | YMapping(entries: seq<(string, Yaml)>)

  /** `len(value)`, None where Python raises TypeError. */
  function Length(v: Yaml): (r: Option<nat>)
    ensures r.None? <==> v.YNull? || v.YBool? || v.YNumber?
  {
    match v
    case YString(s) => Some(|s|)
    case YList(items) => Some(|items|)
    case YMapping(entries) => Some(|entries|)
    case _ => None
  }

  /**
   * The value of `overwrite` once the tags are fetched: `'Y'` when there
   * is no `tags` key (KeyError) or its value has no length (TypeError), the
   * user's answer when there are tags, `'N'` when the tags are empty.
   */
  function Overwrite(metadata: map<string, Yaml>, answer: string): string
  {
    if "tags" !in metadata then "Y"
    else match Length(metadata["tags"])
      case None => "Y"
      case Some(n) => if n > 0 then answer else "N"
  }

  /** `re.match('[y]', overwrite, re.IGNORECASE)`: a `y` or `Y` at the very start. */
  predicate Retags(overwrite: string)
  {
    overwrite != [] && (overwrite[0] == 'y' || overwrite[0] == 'Y')
  }

  /**
   * The post is retagged exactly when it has no usable tags or the user,
   * shown some tags, answers with a leading `y`.
   */
  lemma RetagDecision(metadata: map<string, Yaml>, answer: string)
    ensures Retags(Overwrite(metadata, answer)) <==>
      || "tags" !in metadata
      || Length(metadata["tags"]).None?
      || (Length(metadata["tags"]).value > 0 && Retags(answer))
  {
  }

  /** Tags that are present but empty are kept whatever the answer. */
  lemma EmptyTagsKept(metadata: map<string, Yaml>, answer: string)
    requires "tags" in metadata && Length(metadata["tags"]) == Some(0)
    ensures !Retags(Overwrite(metadata, answer))
  {
  }

  /** `re.match` anchors at the start: an answer like `"okay"` does not retag. */
  lemma AnswerAnchored(answer: string)
    requires answer != [] && answer[0] != 'y' && answer[0] != 'Y'
    ensures !Retags(answer) && !Retags(" " + answer)
  {
  }

  // ---------------------------------------------------------------------
  // The PascalCase transform
  // ---------------------------------------------------------------------

  predicate IsLetter(c: char)
  {
    'a' <= c <= 'z' || 'A' <= c <= 'Z'
  }

  function Upper(c: char): char
  {
    if 'a' <= c <= 'z' then (c as int - 32) as char else c
  }

  function Lower(c: char): char
  {
    if 'A' <= c <= 'Z' then (c as int + 32) as char else c
  }

  /**
   * `str.title()` from a position whose previous character was (or was
   * not) a letter: a letter after a letter is lowered, any other letter
   * raised, every other character kept.
   */
  function TitleFrom(s: string, afterLetter: bool): (r: string)
    ensures |r| == |s|
    decreases |s|
  {
    if s == [] then []
    else
      var c := s[0];
      [if !IsLetter(c) then c else if afterLetter then Lower(c) else Upper(c)] + TitleFrom(s[1..], IsLetter(c))
  }

  /** `str.title()` */
  function Title(s: string): string
  {
    TitleFrom(s, false)
  }

  /** The character-by-character meaning of `TitleFrom`. */
  lemma {:induction false} TitleFromAt(s: string, afterLetter: bool, i: nat)
    requires i < |s|
    ensures TitleFrom(s, afterLetter)[i] ==
      if !IsLetter(s[i]) then s[i]
      else if (if i == 0 then afterLetter else IsLetter(s[i - 1])) then Lower(s[i])
      else Upper(s[i])
    decreases i
  {
    if i > 0 {
      TitleFromAt(s[1..], IsLetter(s[0]), i - 1);
    }
  }

  /**
   * Each letter of `Title(s)` is upper case exactly when it starts a run of
   * letters; other characters are unchanged.
   */
  lemma TitleAt(s: string, i: nat)
    requires i < |s|
    ensures Title(s)[i] ==
      if !IsLetter(s[i]) then s[i]
      else if i > 0 && IsLetter(s[i - 1]) then Lower(s[i])
      else Upper(s[i])
  {
    TitleFromAt(s, false, i);
  }

  /** A non-letter separates words: the two sides are titled independently. */
  lemma {:induction false} TitleSplits(a: string, c: char, b: string, afterLetter: bool)
    requires !IsLetter(c)
    ensures TitleFrom(a + [c] + b, afterLetter) == TitleFrom(a, afterLetter) + [c] + Title(b)
    decreases |a|
  {
    if a == [] {
      assert (a + [c] + b)[1..] == b;
    } else {
      assert (a + [c] + b)[1..] == a[1..] + [c] + b;
      TitleSplits(a[1..], c, b, IsLetter(a[0]));
    }
  }

  /** Titling twice changes nothing more. */
  lemma {:induction false} TitleIdempotent(s: string, afterLetter: bool)
    ensures TitleFrom(TitleFrom(s, afterLetter), afterLetter) == TitleFrom(s, afterLetter)
    decreases |s|
  {
    if s != [] {
      TitleIdempotent(s[1..], IsLetter(s[0]));
    }
  }

  /** `''.join(x for x in s if not x.isspace())` */
  function WithoutSpaces(s: string): (r: string)
    ensures |r| <= |s|
    ensures forall c :: c in r ==> !IsSpace(c)
    ensures (forall c :: c in s ==> !IsSpace(c)) ==> r == s
    decreases |s|
  {
    if s == [] then []
    else if IsSpace(s[0]) then WithoutSpaces(s[1..])
    else
      assert forall c :: c in s[1..] ==> c in s;
      [s[0]] + WithoutSpaces(s[1..])
  }

  lemma {:induction false} WithoutSpacesConcat(a: string, b: string)
    ensures WithoutSpaces(a + b) == WithoutSpaces(a) + WithoutSpaces(b)
    decreases |a|
  {
    if a != [] {
      assert (a + b)[0] == a[0] && (a + b)[1..] == a[1..] + b;
      WithoutSpacesConcat(a[1..], b);
      if IsSpace(a[0]) {
        assert WithoutSpaces(a + b) == WithoutSpaces(a[1..] + b);
        assert WithoutSpaces(a) == WithoutSpaces(a[1..]);
      } else {
        assert WithoutSpaces(a + b) == [a[0]] + WithoutSpaces(a[1..] + b);
        assert WithoutSpaces(a) == [a[0]] + WithoutSpaces(a[1..]);
      }
    } else {
      assert a + b == b;
    }
  }

  /** One key phrase as a tag: titled, then with every whitespace character removed. */
  function Pascal(phrase: string): (r: string)
    ensures |r| <= |phrase|
    ensures forall c :: c in r ==> !IsSpace(c)
  {
    WithoutSpaces(Title(phrase))
  }

  /** A whitespace character between words just joins their titled forms. */
  lemma PascalJoins(a: string, c: char, b: string)
    requires IsSpace(c) && !IsLetter(c)
    ensures Pascal(a + [c] + b) == Pascal(a) + Pascal(b)
  {
    TitleSplits(a, c, b, false);
    WithoutSpacesConcat(Title(a) + [c], Title(b));
    WithoutSpacesConcat(Title(a), [c]);
  }

  /** The new tag list: one PascalCase tag per key phrase, in order. */
  function Transformed(phrases: seq<string>): (r: seq<string>)
    ensures |r| == |phrases|
    ensures forall i :: 0 <= i < |phrases| ==> r[i] == Pascal(phrases[i])
  {
    seq(|phrases|, i requires 0 <= i < |phrases| => Pascal(phrases[i]))
  }

  /** The loop building `transformed_keyphrases`. */
  method TransformKeyphrases(phrases: seq<string>) returns (tags: seq<string>)
    ensures tags == Transformed(phrases)
  {
    tags := [];
    for i := 0 to |phrases|
      invariant tags == Transformed(phrases[..i])
    {
      tags := tags + [Pascal(phrases[i])];
    }
    assert phrases[..|phrases|] == phrases;
  }

  // ---------------------------------------------------------------------
  // The post and its new tags
  // ---------------------------------------------------------------------

  /** The tags as stored in the front matter: a list of strings. */
  function TagList(tags: seq<string>): (v: Yaml)
    ensures Length(v) == Some(|tags|)
  {
    YList(seq(|tags|, i requires 0 <= i < |tags| => YString(tags[i])))
  }

  /** A post loaded with `frontmatter.load`: its front matter and its text. */
  class Post {
    var metadata: map<string, Yaml>
    var content: string

    constructor(metadata: map<string, Yaml>, content: string)
      ensures this.metadata == metadata && this.content == content
    {
      this.metadata := metadata;
      this.content := content;
    }

    /** `post.metadata["tags"] = tags`: nothing else of the post changes. */
    method SetTags(tags: seq<string>)
      modifies this
      ensures metadata == old(metadata)["tags" := TagList(tags)]
      ensures content == old(content)
    {
      metadata := metadata["tags" := TagList(tags)];
    }
  }

  /**
   * The part of `main` after the post is loaded: decide, and when the
   * decision is yes replace the tags by the transformed key phrases.
   */
  method Retag(post: Post, answer: string, phrases: seq<string>) returns (retagged: bool)
    modifies post
    ensures retagged == Retags(Overwrite(old(post.metadata), answer))
    ensures post.metadata == if retagged then old(post.metadata)["tags" := TagList(Transformed(phrases))]
      else old(post.metadata)
    ensures post.content == old(post.content)
  {
    var overwrite := Overwrite(post.metadata, answer);
    retagged := Retags(overwrite);
    if retagged {
      var tags := TransformKeyphrases(phrases);
      post.SetTags(tags);
    }
  }

  /**
   * After a retag the next run asks the user exactly when some key phrase
   * was stored; an empty list of key phrases is never replaced again.
   */
  lemma RetagAgain(metadata: map<string, Yaml>, tags: seq<string>, answer: string)
    ensures Retags(Overwrite(metadata["tags" := TagList(tags)], answer)) <==> |tags| > 0 && Retags(answer)
  {
  }

  // ---------------------------------------------------------------------
  // Fenced code: `re.sub(r"```.*```", '', text, flags=re.S)`
  // ---------------------------------------------------------------------

  const FENCE := "```"

  /** The first position of `pat` in `s`, if any. */
  function FirstAt(s: string, pat: string, from: nat): (r: Option<nat>)
    requires |pat| > 0
    ensures r.None? ==> forall k :: from <= k ==> !OccursAt(s, pat, k)
    ensures r.Some? ==>
      (from <= r.value && OccursAt(s, pat, r.value) && forall k :: from <= k < r.value ==> !OccursAt(s, pat, k))
    decreases |s| - from
  {
    if from + |pat| > |s| then None
    else if OccursAt(s, pat, from) then Some(from)
    else FirstAt(s, pat, from + 1)
  }

  /** The last position of `pat` in `s` before `upto`, if any. */
  function LastAt(s: string, pat: string, upto: nat): (r: Option<nat>)
    ensures r.None? ==> forall k :: 0 <= k < upto ==> !OccursAt(s, pat, k)
    ensures r.Some? ==>
      (r.value < upto && OccursAt(s, pat, r.value) && forall k :: r.value < k < upto ==> !OccursAt(s, pat, k))
  {
    if upto == 0 then None
    else if OccursAt(s, pat, upto - 1) then Some(upto - 1)
    else LastAt(s, pat, upto - 1)
  }

  /**
   * With DOTALL and a greedy `.*`, the leftmost match starts at the first
   * fence and ends with the last fence that does not overlap it; no fence
   * is left after it, so there is at most one match.
   */
  function StripFences(s: string): (r: string)
    ensures |r| <= |s|
  {
    match FirstAt(s, FENCE, 0)
    case None => s
    case Some(i) =>
      match LastAt(s, FENCE, |s|)
      case None => s
      case Some(j) => if j < i + 3 then s else s[..i] + s[j + 3..]
  }

  /** Two fences that do not overlap: everything from the first to the last goes. */
  lemma {:induction false} FencesRemoved(s: string, a: nat, b: nat)
    requires OccursAt(s, FENCE, a) && OccursAt(s, FENCE, b) && a + 3 <= b
    ensures var i := FirstAt(s, FENCE, 0).value;
      var j := LastAt(s, FENCE, |s|).value;
      i <= a && b <= j && StripFences(s) == s[..i] + s[j + 3..]
    ensures !Occurs(StripFences(s), FENCE)
  {
    FirstAndLast(s, FENCE, a, b);
    var i := FirstAt(s, FENCE, 0).value;
    var j := LastAt(s, FENCE, |s|).value;
    var r := s[..i] + s[j + 3..];
    assert StripFences(s) == r;
    NoFenceLeft(s, i, j);
    assert !Occurs(r, FENCE);
  }

  /** With two occurrences, the first is at or before one and the last at or after the other. */
  lemma FirstAndLast(s: string, pat: string, a: nat, b: nat)
    requires |pat| > 0 && OccursAt(s, pat, a) && OccursAt(s, pat, b)
    ensures FirstAt(s, pat, 0).Some? && FirstAt(s, pat, 0).value <= a
    ensures FirstAt(s, pat, 0).Some? && forall k :: 0 <= k < FirstAt(s, pat, 0).value ==> !OccursAt(s, pat, k)
    ensures LastAt(s, pat, |s|).Some? && b <= LastAt(s, pat, |s|).value
    ensures forall k :: LastAt(s, pat, |s|).value < k ==> !OccursAt(s, pat, k)
  {
    var last := LastAt(s, pat, |s|);
    assert b < |s|;
    forall k | last.value < k
      ensures !OccursAt(s, pat, k)
    {
      if k < |s| {
        assert !OccursAt(s, pat, k);
      }
    }
  }

  /** Cutting from the first fence to the end of the last leaves no fence. */
  lemma {:induction false} NoFenceLeft(s: string, i: nat, j: nat)
    requires OccursAt(s, FENCE, i) && forall k :: 0 <= k < i ==> !OccursAt(s, FENCE, k)
    requires OccursAt(s, FENCE, j) && forall k :: j < k ==> !OccursAt(s, FENCE, k)
    requires i + 3 <= j
    ensures !Occurs(s[..i] + s[j + 3..], FENCE)
  {
    var r := s[..i] + s[j + 3..];
    forall k | 0 <= k <= |r| - 3
      ensures !OccursAt(r, FENCE, k)
    {
      if k + 3 <= i {
        assert !OccursAt(s, FENCE, k);
        assert r[k..k + 3] == s[k..k + 3];
      } else if k >= i {
        var m := j + 3 + (k - i);
        assert j < m && m + 3 <= |s|;
        assert !OccursAt(s, FENCE, m);
        assert r[i..] == s[j + 3..];
        assert r[k..k + 3] == r[i..][k - i..k - i + 3] == s[j + 3..][k - i..k - i + 3] == s[m..m + 3];
      } else {
        NoFenceAcross(s, i, r, k);
      }
    }
  }

  /** The text before the first fence does not end in a backtick. */
  lemma {:induction false} NoFenceAcross(s: string, i: nat, r: string, k: nat)
    requires OccursAt(s, FENCE, i) && !OccursAt(s, FENCE, i - 1)
    requires i <= |r| && r[..i] == s[..i] && k < i < k + 3 && k + 3 <= |r|
    ensures !OccursAt(r, FENCE, k)
  {
    assert s[i - 1..i + 2] == [s[i - 1], s[i], s[i + 1]];
    assert s[i] == s[i..i + 3][0] == '`' && s[i + 1] == s[i..i + 3][1] == '`';
    assert s[i - 1] != '`';
    assert r[i - 1] == s[..i][i - 1];
    assert r[k..k + 3][i - 1 - k] != FENCE[i - 1 - k];
  }

  /** Without two non-overlapping fences the text stays as it is. */
  lemma FencesKept(s: string)
    requires forall a, b :: OccursAt(s, FENCE, a) && OccursAt(s, FENCE, b) ==> b < a + 3
    ensures StripFences(s) == s
  {
  }
}
