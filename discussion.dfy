/**
 * auto_discussion_for_jekyl_blog_post.py: make sure every post of a Jekyll
 * blog has a GitHub discussion titled after its URL path.  The script reads
 * its settings from a password-manager entry, lists the posts and the
 * existing discussions over GraphQL and creates the missing discussions.
 *
 * The password manager's output is given as its lines, the two listings as
 * the names found in the replies (absent when a reply has no such field);
 * the GraphQL requests the script posts are the result.
 */
module Discussion {
  import opened PyText

  // ---------------------------------------------------------------------
  // `str.split(sep)` on one character
  // ---------------------------------------------------------------------

  /** `s.split(sep)`: the fields between the separators, in order. */
  function Split(s: string, sep: char): (r: seq<string>)
    ensures |r| >= 1
    ensures forall i :: 0 <= i < |r| ==> sep !in r[i]
    decreases |s|
  {
    if s == [] then [""]
    else
      var rest := Split(s[1..], sep);
      if s[0] == sep then [""] + rest else [[s[0]] + rest[0]] + rest[1..]
  }

  /** `sep.join(fields)` */
  function Join(fields: seq<string>, sep: char): string
    requires |fields| >= 1
    decreases |fields|
  {
    if |fields| == 1 then fields[0] else fields[0] + [sep] + Join(fields[1..], sep)
  }

  /** Splitting and joining again gives the text back. */
  lemma {:induction false} SplitJoin(s: string, sep: char)
    ensures Join(Split(s, sep), sep) == s
    decreases |s|
  {
    if s != [] {
      var rest := Split(s[1..], sep);
      SplitJoin(s[1..], sep);
      if s[0] == sep {
        assert Split(s, sep)[1..] == rest;
        assert Join(Split(s, sep), sep) == "" + [sep] + Join(rest, sep);
      } else if |rest| == 1 {
        assert [s[0]] + s[1..] == s;
      } else {
        var r := Split(s, sep);
        assert r[1..] == rest[1..];
        assert Join(rest, sep) == rest[0] + [sep] + Join(rest[1..], sep);
        assert [s[0]] + s[1..] == s;
      }
    }
  }

  /** The first field is the text before the first separator. */
  lemma {:induction false} SplitFirst(a: string, sep: char, b: string)
    requires sep !in a
    ensures Split(a + [sep] + b, sep)[0] == a
    ensures Split(a + [sep] + b, sep)[1..] == Split(b, sep)
    decreases |a|
  {
    if a == [] {
      assert (a + [sep] + b)[1..] == b;
    } else {
      assert (a + [sep] + b)[1..] == a[1..] + [sep] + b;
      assert a[0] in a;
      SplitFirst(a[1..], sep, b);
      assert [a[0]] + a[1..] == a;
    }
  }

  /** A text without the separator is one field. */
  lemma {:induction false} SplitNone(s: string, sep: char)
    requires sep !in s
    ensures Split(s, sep) == [s]
    decreases |s|
  {
    if s != [] {
      assert s[0] in s;
      assert forall c :: c in s[1..] ==> c in s;
      SplitNone(s[1..], sep);
      assert [s[0]] + s[1..] == s;
    }
  }

  // ---------------------------------------------------------------------
  // The settings read from the password manager
  // ---------------------------------------------------------------------

  /** The module-level names the script reads, all starting out empty. */
  const NAMES: seq<string> := ["github_token", "repo_owner", "blog_repo_name", "discussion_repo_name",
                               "discussion_repo_id", "discussion_category_id", "blogsite_url"]

  function Defaults(): (m: map<string, string>)
    ensures forall k :: k in m <==> k in NAMES
    ensures forall k :: k in m ==> m[k] == ""
  {
    map k | k in NAMES :: ""
  }

  /**
   * One later line: the name before its first `=` and the value between its
   * first and second `=`; None (an IndexError) when the line has no `=`.
   */
  function Binding(line: string): (r: Option<(string, string)>)
  {
    var fields := Split(line, '=');
    if |fields| < 2 then None else Some((fields[0], fields[1]))
  }

  /** A line `key=value` or `key=value=more`: the value stops at the second `=`. */
  lemma BindingTruncates(key: string, value: string, more: string)
    requires '=' !in key && '=' !in value
    ensures Binding(key + "=" + value) == Some((key, value))
    ensures Binding(key + "=" + value + "=" + more) == Some((key, value))
  {
    SplitFirst(key, '=', value);
    SplitNone(value, '=');
    assert key + "=" + value == key + ['='] + value;
    SplitFirst(key, '=', value + "=" + more);
    SplitFirst(value, '=', more);
    assert key + "=" + value + "=" + more == key + ['='] + (value + ['='] + more);
    assert value + "=" + more == value + ['='] + more;
  }

  /** A line without `=` has no binding. */
  lemma BindingNeedsEquals(line: string)
    ensures Binding(line).None? <==> '=' !in line
  {
    if '=' in line {
      var i :| 0 <= i < |line| && line[i] == '=';
      var j := FirstIndex(line, '=');
      assert line == line[..j] + ['='] + line[j + 1..];
      SplitFirst(line[..j], '=', line[j + 1..]);
    } else {
      SplitNone(line, '=');
    }
  }

  function FirstIndex(s: string, c: char): (i: nat)
    requires c in s
    ensures i < |s| && s[i] == c && c !in s[..i]
  {
    if s[0] == c then 0
    else
      assert c in s[1..];
      var k := FirstIndex(s[1..], c);
      assert s[..k + 1] == [s[0]] + s[1..][..k];
      k + 1
  }

  /**
   * The settings after the lines: line 0 is the token; every later line
   * assigns the module-level name it binds (any name at all, so a later
   * `github_token=` line replaces the token).  None when a later line
   * has no `=`, or binds the loop's own counter `i` to a string so that
   * `i = i + 1` raises a TypeError; either ends the script.
   */
  function Settings(lines: seq<string>): (r: Option<map<string, string>>)
    decreases |lines|
  {
    if lines == [] then Some(Defaults())
    else
      match Settings(lines[..|lines| - 1])
      case None => None
      case Some(m) =>
        var line := lines[|lines| - 1];
        if |lines| == 1 then Some(m["github_token" := line])
        else match Binding(line)
          case None => None
          case Some((k, v)) => if k == "i" then None else Some(m[k := v])
  }

  /** A later line assigns the name `key`. */
  predicate BindsKey(line: string, key: string)
  {
    Binding(line).Some? && Binding(line).value.0 == key
  }

  /** The last line that binds a name decides its value. */
  lemma {:induction false} SettingsLastWins(lines: seq<string>, j: nat, key: string, value: string)
    requires Settings(lines).Some? && 1 <= j < |lines| && Binding(lines[j]) == Some((key, value))
    requires forall l :: j < l < |lines| ==> !BindsKey(lines[l], key)
    ensures key in Settings(lines).value && Settings(lines).value[key] == value
    decreases |lines|
  {
    var front := lines[..|lines| - 1];
    assert Settings(front).Some?;
    if j < |front| {
      assert forall l :: j < l < |front| ==> front[l] == lines[l];
      SettingsLastWins(front, j, key, value);
      assert Binding(lines[|lines| - 1]).Some?;
    }
  }

  /** The token is line 0 unless a later line binds `github_token`. */
  lemma {:induction false} SettingsToken(lines: seq<string>)
    requires Settings(lines).Some? && |lines| >= 1
    requires forall l :: 1 <= l < |lines| ==> !BindsKey(lines[l], "github_token")
    ensures "github_token" in Settings(lines).value && Settings(lines).value["github_token"] == lines[0]
    decreases |lines|
  {
    if |lines| > 1 {
      var front := lines[..|lines| - 1];
      assert forall l :: 1 <= l < |front| ==> front[l] == lines[l];
      SettingsToken(front);
      assert Binding(lines[|lines| - 1]).Some?;
    }
  }

  /** A name that no later line binds keeps its empty default (the token aside). */
  lemma {:induction false} SettingsDefault(lines: seq<string>, key: string)
    requires Settings(lines).Some? && key in NAMES && key != "github_token"
    requires forall l :: 1 <= l < |lines| ==> !BindsKey(lines[l], key)
    ensures key in Settings(lines).value && Settings(lines).value[key] == ""
    decreases |lines|
  {
    if lines != [] {
      var front := lines[..|lines| - 1];
      assert forall l :: 1 <= l < |front| ==> front[l] == lines[l];
      SettingsDefault(front, key);
      if |lines| > 1 {
        assert Binding(lines[|lines| - 1]).Some?;
      }
    }
  }

  /** A later line that ends the loop: it has no `=`, or it binds the counter `i`. */
  predicate Fatal(line: string)
  {
    '=' !in line || BindsKey(line, "i")
  }

  /**
   * Every later line must bind something other than `i`, or the whole run
   * stops.
   */
  lemma {:induction false} SettingsFail(lines: seq<string>)
    ensures Settings(lines).None? <==> exists j :: 1 <= j < |lines| && Fatal(lines[j])
    decreases |lines|
  {
    if lines != [] {
      var front := lines[..|lines| - 1];
      SettingsFail(front);
      assert forall l :: 0 <= l < |front| ==> front[l] == lines[l];
      BindingNeedsEquals(lines[|lines| - 1]);
      if exists j :: 1 <= j < |front| && Fatal(front[j]) {
        var j :| 1 <= j < |front| && Fatal(front[j]);
        assert Fatal(lines[j]);
      }
      if exists j :: 1 <= j < |lines| && Fatal(lines[j]) {
        var j :| 1 <= j < |lines| && Fatal(lines[j]);
        if j < |front| {
          assert Fatal(front[j]);
        }
      }
    }
  }

  /** `i=1` as a later line: `i` holds the string `"1"` and `i + 1` raises. */
  lemma CounterBindingFails(token: string)
    ensures Settings([token, "i=1"]).None?
  {
    BindingTruncates("i", "1", "");
    assert "i" + "=" + "1" == "i=1";
    assert [token, "i=1"][..1] == [token];
    assert [token][..0] == [];
  }

  /** The credential loop, counting lines with `i`. */
  method ReadSettings(lines: seq<string>) returns (r: Option<map<string, string>>)
    ensures r == Settings(lines)
  {
    var m := Defaults();
    var i := 0;
    while i < |lines|
      invariant i <= |lines|
      invariant Settings(lines[..i]) == Some(m)
    {
      assert lines[..i + 1][..i] == lines[..i];
      var line := lines[i];
      if i == 0 {
        m := m["github_token" := line];
      } else {
        var fields := Split(line, '=');
        if |fields| < 2 {
          // `pass_line.split('=')[1]` raises IndexError
          SettingsStopsAt(lines, i + 1);
          assert lines[..|lines|] == lines;
          return None;
        }
        if fields[0] == "i" {
          // `locals()['i']` now holds a string, and `i = i + 1` raises TypeError
          SettingsStopsAt(lines, i + 1);
          assert lines[..|lines|] == lines;
          return None;
        }
        m := m[fields[0] := fields[1]];
      }
      i := i + 1;
    }
    assert lines[..|lines|] == lines;
    return Some(m);
  }

  /** Once a prefix of the lines fails, the whole run fails. */
  lemma {:induction false} SettingsStopsAt(lines: seq<string>, n: nat)
    requires n <= |lines| && Settings(lines[..n]).None?
    ensures Settings(lines).None?
    decreases |lines| - n
  {
    if n < |lines| {
      assert lines[..n + 1][..n] == lines[..n];
      SettingsStopsAt(lines, n + 1);
    } else {
      assert lines[..n] == lines;
    }
  }

  /** A module-level name's value: its empty default if nothing set it. */
  function Setting(m: map<string, string>, name: string): string
  {
    if name in m then m[name] else ""
  }

  // ---------------------------------------------------------------------
  // `wrap_requests_post`
  // ---------------------------------------------------------------------

  /**
   * The headers sent: the caller's (or none), with Authorization set to
   * `token <github_token>`.
   */
  function Authorize(headers: Option<map<string, string>>, token: string): (r: map<string, string>)
    ensures "Authorization" in r && r["Authorization"] == "token " + token
    ensures forall k :: k != "Authorization" ==>
      (k in r <==> headers.Some? && k in headers.value)
      && (k in r ==> r[k] == headers.value[k])
  {
    var h := if headers.None? then map[] else headers.value;
    h["Authorization" := "token " + token]
  }

  // ---------------------------------------------------------------------
  // Post names to discussion titles
  // ---------------------------------------------------------------------

  /**
   * A post's discussion title: drop the 11 characters of the
   * `YYYY-MM-DD-` prefix, delete a final match of `.md$`, wrap the rest in
   * `blog/` and `/`.
   */
  function ExpectedTitle(name: string): (t: string)
    ensures StartsWith(t, "blog/") && EndsWith(t, "/")
  {
    "blog/" + DotSuffixSub(DropPrefix(name, 11), "md", "") + "/"
  }

  /**
   * A dated post name `<date><slug>?md` becomes `blog/<slug>/`, whatever the
   * character before `md` is (the `.` of the pattern is not escaped), so
   * `notes.md` and `notes_md` give the same title.
   */
  lemma TitleOfPost(date: string, slug: string, c: char)
    requires |date| == 11 && c != '\n'
    ensures ExpectedTitle(date + slug + [c] + "md") == "blog/" + slug + "/"
  {
    var name := date + slug + [c] + "md";
    assert DropPrefix(name, 11) == slug + [c] + "md";
    var s := slug + [c] + "md";
    assert s[|s| - 2..] == "md" && s[|s| - 3] == c;
    assert DotSuffixAt(s, "md", |s|);
    assert !DotSuffixAt(s, "md", |s| - 1);
    assert s[..|s| - 3] == slug;
  }

  /** A name whose rest does not end in a match of `.md$` keeps that rest. */
  lemma TitleWithoutSuffix(date: string, rest: string)
    requires |date| == 11 && DotSuffixEnd(rest, "md").None?
    ensures ExpectedTitle(date + rest) == "blog/" + rest + "/"
  {
    assert DropPrefix(date + rest, 11) == rest;
  }

  /** The expected titles of the posts, one per post, in order. */
  function Titles(names: seq<string>): (r: seq<string>)
    ensures |r| == |names|
    ensures forall i :: 0 <= i < |names| ==> r[i] == ExpectedTitle(names[i])
    ensures forall t :: t in r ==> StartsWith(t, "blog/") && EndsWith(t, "/")
  {
    var r := seq(|names|, i requires 0 <= i < |names| => ExpectedTitle(names[i]));
    assert forall t :: t in r ==> exists i :: 0 <= i < |names| && t == ExpectedTitle(names[i]);
    r
  }

  /** The loop building `expected_titles`: one entry per post, in order. */
  method ExpectedTitles(names: seq<string>) returns (titles: seq<string>)
    ensures titles == Titles(names)
  {
    titles := [];
    for i := 0 to |names|
      invariant |titles| == i
      invariant forall j :: 0 <= j < i ==> titles[j] == ExpectedTitle(names[j])
    {
      titles := titles + [ExpectedTitle(names[i])];
    }
  }

  // ---------------------------------------------------------------------
  // Which discussions to create
  // ---------------------------------------------------------------------

  /** The expected titles without a discussion, in expected order, duplicates kept. */
  function Missing(expected: seq<string>, actual: seq<string>): (r: seq<string>)
    ensures |r| <= |expected|
    decreases |expected|
  {
    if expected == [] then []
    else
      var front := Missing(expected[..|expected| - 1], actual);
      var t := expected[|expected| - 1];
      if t in actual then front else front + [t]
  }

  /**
   * A title is created exactly as often as it is expected, unless a
   * discussion with that title exists, in which case never.
   */
  lemma {:induction false} MissingCounts(expected: seq<string>, actual: seq<string>)
    ensures forall t :: multiset(Missing(expected, actual))[t] == if t in actual then 0 else multiset(expected)[t]
    ensures forall t :: t in Missing(expected, actual) <==> t in expected && t !in actual
    decreases |expected|
  {
    if expected != [] {
      var front := expected[..|expected| - 1];
      MissingCounts(front, actual);
      assert expected == front + [expected[|expected| - 1]];
    }
  }

  /** The discussion body: a heading with the title, a line of text, the post's URL. */
  function Body(title: string, blogsiteUrl: string): string
  {
    "# " + title + BODY_MIDDLE + blogsiteUrl + title
  }

  /** The fixed text between the heading and the link. */
  const BODY_MIDDLE: string := "\n\nAsk me anything "
    + "about this blog!\n\n"

  lemma BodyMiddleAngleFree()
    ensures '<' !in BODY_MIDDLE
  {
  }

  /** The body adds no `<` of its own. */
  lemma BodyAngleFree(title: string, blogsiteUrl: string)
    requires '<' !in title && '<' !in blogsiteUrl
    ensures '<' !in Body(title, blogsiteUrl)
  {
    BodyMiddleAngleFree();
  }

  // ---------------------------------------------------------------------
  // Query templates and chained `str.replace`
  // ---------------------------------------------------------------------

  /** A query template: literal text and `<NAME>` placeholders. */
  datatype Part = Text(text: string) | Hole(name: string)

  function PartText(p: Part): string
  {
    match p
    case Text(s) => s
    case Hole(n) => "<" + n + ">"
  }

  /** The template as the literal string in the source. */
  function Flatten(parts: seq<Part>): string
    decreases |parts|
  {
    if parts == [] then "" else PartText(parts[0]) + Flatten(parts[1..])
  }

  /** The value bound to a placeholder name, the first binding winning. */
  function Lookup(pairs: seq<(string, string)>, name: string): Option<string>
  {
    if pairs == [] then None
    else if pairs[0].0 == name then Some(pairs[0].1)
    else Lookup(pairs[1..], name)
  }

  /** The reference meaning of a filled template: each placeholder replaced by its value. */
  function Render(parts: seq<Part>, pairs: seq<(string, string)>): string
    decreases |parts|
  {
    if parts == [] then ""
    else
      var head := match parts[0]
        case Text(s) => s
        case Hole(n) => match Lookup(pairs, n) case None => "<" + n + ">" case Some(v) => v;
      head + Render(parts[1..], pairs)
  }

  /** `.replace("<A>", a).replace("<B>", b)…` in the given order. */
  function ReplaceChain(s: string, pairs: seq<(string, string)>): string
    decreases |pairs|
  {
    if pairs == [] then s
    else ReplaceChain(Replace(s, "<" + pairs[0].0 + ">", pairs[0].1), pairs[1..])
  }

  /** No text holds a `<`, no placeholder name a `<` or a `>`. */
  predicate Clean(parts: seq<Part>)
  {
    forall i :: 0 <= i < |parts| ==>
      match parts[i]
      case Text(s) => '<' !in s
      case Hole(n) => '<' !in n && '>' !in n
  }

  predicate CleanPairs(pairs: seq<(string, string)>)
  {
    forall i :: 0 <= i < |pairs| ==> '<' !in pairs[i].0 && '>' !in pairs[i].0 && '<' !in pairs[i].1
  }

  /** The template with one placeholder filled in. */
  function Fill(parts: seq<Part>, name: string, value: string): (r: seq<Part>)
    ensures |r| == |parts|
    decreases |parts|
  {
    if parts == [] then []
    else (if parts[0] == Hole(name) then [Text(value)] else [parts[0]]) + Fill(parts[1..], name, value)
  }

  /** Two different placeholders never match one another. */
  lemma HoleMismatch(n: string, name: string, rest: string)
    requires n != name && '>' !in n && '>' !in name
    requires |"<" + n + ">" + rest| >= |"<" + name + ">"|
    ensures ("<" + n + ">" + rest)[..|"<" + name + ">"|] != "<" + name + ">"
  {
    var s := "<" + n + ">" + rest;
    var target := "<" + name + ">";
    if |name| < |n| {
      assert s[|name| + 1] == n[|name|] && n[|name|] in n;
      assert target[|name| + 1] == '>';
      assert s[..|target|][|name| + 1] != target[|name| + 1];
    } else if |name| > |n| {
      assert s[|n| + 1] == '>';
      assert target[|n| + 1] == name[|n|] && name[|n|] in name;
      assert s[..|target|][|n| + 1] != target[|n| + 1];
    } else {
      var i :| 0 <= i < |n| && n[i] != name[i];
      assert s[i + 1] == n[i] && target[i + 1] == name[i];
      assert s[..|target|][i + 1] != target[i + 1];
    }
  }

  /** Replacing in a text without `<` followed by more: the text stays. */
  lemma ReplaceAfterText(s: string, rest: string, name: string, value: string)
    requires '<' !in s
    ensures Replace(s + rest, "<" + name + ">", value) == s + Replace(rest, "<" + name + ">", value)
  {
    ReplaceKeepsPrefix(s, rest, "<" + name + ">", value);
  }

  /** Replacing in another placeholder followed by more: the placeholder stays. */
  lemma ReplaceAfterOtherHole(n: string, rest: string, name: string, value: string)
    requires n != name && '<' !in n && '>' !in n && '>' !in name
    ensures Replace("<" + n + ">" + rest, "<" + name + ">", value) == "<" + n + ">" + Replace(rest, "<" + name + ">", value)
  {
    var target := "<" + name + ">";
    var whole := "<" + n + ">" + rest;
    if |whole| >= |target| {
      HoleMismatch(n, name, rest);
      assert whole[1..] == (n + ">") + rest;
      ReplaceKeepsPrefix(n + ">", rest, target, value);
      assert Replace(whole, target, value) == [whole[0]] + Replace(whole[1..], target, value);
      assert [whole[0]] + (n + ">") == "<" + n + ">";
    } else {
      assert Replace(rest, target, value) == rest;
    }
  }

  lemma CleanTail(parts: seq<Part>)
    requires Clean(parts) && parts != []
    ensures Clean(parts[1..])
  {
    forall i | 0 <= i < |parts[1..]|
      ensures parts[1..][i] == parts[i + 1]
    {
    }
  }

  /**
   * One `str.replace` of a placeholder fills exactly that placeholder,
   * as long as no text and no value holds a `<`.
   */
  lemma {:induction false} ReplaceFills(parts: seq<Part>, name: string, value: string)
    requires Clean(parts) && '<' !in name && '>' !in name && '<' !in value
    ensures Replace(Flatten(parts), "<" + name + ">", value) == Flatten(Fill(parts, name, value))
    decreases |parts|
  {
    var target := "<" + name + ">";
    if parts != [] {
      var rest := Flatten(parts[1..]);
      CleanTail(parts);
      ReplaceFills(parts[1..], name, value);
      assert Fill(parts, name, value)[1..] == Fill(parts[1..], name, value);
      assert Clean(parts);
      match parts[0]
      case Text(s) =>
        assert '<' !in s;
        ReplaceAfterText(s, rest, name, value);
      case Hole(n) =>
        if n == name {
          ReplaceAtStart(rest, target, value);
        } else {
          assert '<' !in n && '>' !in n;
          ReplaceAfterOtherHole(n, rest, name, value);
        }
    } else {
      assert Replace("", target, value) == "";
    }
  }

  lemma {:induction false} FillClean(parts: seq<Part>, name: string, value: string)
    requires Clean(parts) && '<' !in value
    ensures Clean(Fill(parts, name, value))
    decreases |parts|
  {
    if parts != [] {
      CleanTail(parts);
      FillClean(parts[1..], name, value);
      var r := Fill(parts, name, value);
      assert r[1..] == Fill(parts[1..], name, value);
      assert forall i :: 1 <= i < |r| ==> r[i] == r[1..][i - 1];
    }
  }

  lemma {:induction false} RenderFill(parts: seq<Part>, name: string, value: string, pairs: seq<(string, string)>)
    ensures Render(Fill(parts, name, value), pairs) == Render(parts, [(name, value)] + pairs)
    decreases |parts|
  {
    if parts != [] {
      RenderFill(parts[1..], name, value, pairs);
      assert Fill(parts, name, value)[1..] == Fill(parts[1..], name, value);
    }
  }

  lemma {:induction false} RenderFilled(parts: seq<Part>)
    ensures Render(parts, []) == Flatten(parts)
    decreases |parts|
  {
    if parts != [] {
      RenderFilled(parts[1..]);
    }
  }

  /**
   * Chained replacement equals direct substitution: with no `<` in any
   * text or value, `.replace` over the placeholders in turn gives the
   * template with every placeholder replaced by its value.
   */
  lemma {:induction false} Substitution(parts: seq<Part>, pairs: seq<(string, string)>)
    requires Clean(parts) && CleanPairs(pairs)
    ensures ReplaceChain(Flatten(parts), pairs) == Render(parts, pairs)
    decreases |pairs|
  {
    if pairs == [] {
      RenderFilled(parts);
    } else {
      var (name, value) := pairs[0];
      ReplaceFills(parts, name, value);
      FillClean(parts, name, value);
      assert CleanPairs(pairs[1..]) by {
        forall i | 0 <= i < |pairs[1..]|
          ensures pairs[1..][i] == pairs[i + 1]
        {
        }
      }
      Substitution(Fill(parts, name, value), pairs[1..]);
      RenderFill(parts, name, value, pairs[1..]);
      assert [(name, value)] + pairs[1..] == pairs;
    }
  }

  /** The query listing the posts of the blog repository. */
  const POSTS_0: string := "\n"
    + "{ repository(owner: \""
  const POSTS_2: string := "\", name: \""
  const POSTS_4: string := "\") {\n"
    + "    object(expression:"
    + " \"master:_posts/\") {\n"
    + "        ... on Tree {\n"
    + "            entries {\n"
    + "                name\n"
    + "            }\n"
    + "        }\n"
    + "    }\n"
    + "} }\n"
  const POSTS_QUERY: seq<Part> := [Text(POSTS_0), Hole("REPO_OWNER"), Text(POSTS_2), Hole("BLOG_REPO_NAME"), Text(POSTS_4)]

  /** The query listing the discussions of the category. */
  const DISCUSSIONS_0: string := "\n"
    + "{ repository(owner:\""
  const DISCUSSIONS_2: string := "\", name:\""
  const DISCUSSIONS_4: string := "\") {\n"
    + "    discussions(first: 100,"
    + " after: null, categoryId: \""
  const DISCUSSIONS_6: string := "\") {\n"
    + "        totalCount\n"
    + "        edges {\n"
    + "            cursor\n"
    + "            node {\n"
    + "                id\n"
    + "            }\n"
    + "        }\n"
    + "        nodes {\n"
    + "            id\n"
    + "            title\n"
    + "            body\n"
    + "            number\n"
    + "            url\n"
    + "        }\n"
    + "    }\n"
    + "} }\n"
  const DISCUSSIONS_QUERY: seq<Part> := [Text(DISCUSSIONS_0), Hole("REPO_OWNER"), Text(DISCUSSIONS_2), Hole("DISCUSSION_REPO_NAME"), Text(DISCUSSIONS_4), Hole("CATEGORYID"), Text(DISCUSSIONS_6)]

  /** The mutation creating one discussion. */
  const MUTATION_0: string := "\n"
    + "            mutation {\n"
    + "                "
    + "createDiscussion(input: "
    + "{repositoryId: \""
  const MUTATION_2: string := "\", categoryId: \""
  const MUTATION_4: string := "\", body: \""
  const MUTATION_6: string := "\", title: \""
  const MUTATION_8: string := "\" }) {\n"
    + "                    discussion"
    + " {\n"
    + "                        id\n"
    + "                    }\n"
    + "                }\n"
    + "            }\n"
    + "            "
  const CREATE_MUTATION: seq<Part> := [Text(MUTATION_0), Hole("REPOSITORYID"), Text(MUTATION_2), Hole("CATEGORYID"), Text(MUTATION_4), Hole("BODY"), Text(MUTATION_6), Hole("EXPECTED_TITLE"), Text(MUTATION_8)]

  lemma Posts0AngleFree()
    ensures '<' !in POSTS_0
  {
  }

  lemma Posts2AngleFree()
    ensures '<' !in POSTS_2
  {
  }

  lemma Posts4AngleFree()
    ensures '<' !in POSTS_4
  {
  }

  /** A text without `<` and a placeholder name without `<` or `>`. */
  predicate CleanPart(p: Part)
  {
    match p
    case Text(s) => '<' !in s
    case Hole(n) => '<' !in n && '>' !in n
  }

  /** A template is clean when each of its parts is. */
  lemma CleanParts(parts: seq<Part>)
    requires forall i :: 0 <= i < |parts| ==> CleanPart(parts[i])
    ensures Clean(parts)
  {
    forall i | 0 <= i < |parts|
      ensures CleanPart(parts[i])
    {
    }
  }

  lemma RepoOwnerClean()
    ensures CleanPart(Hole("REPO_OWNER"))
  {
  }

  lemma BlogRepoNameClean()
    ensures CleanPart(Hole("BLOG_REPO_NAME"))
  {
  }

  lemma DiscussionRepoNameClean()
    ensures CleanPart(Hole("DISCUSSION_REPO_NAME"))
  {
    var a, b := "DISCUSSION", "_REPO_NAME";
    assert '<' !in a && '>' !in a && '<' !in b && '>' !in b;
    assert "DISCUSSION_REPO_NAME" == a + b;
  }

  lemma CategoryidClean()
    ensures CleanPart(Hole("CATEGORYID"))
  {
  }

  lemma RepositoryidClean()
    ensures CleanPart(Hole("REPOSITORYID"))
  {
  }

  lemma BodyClean()
    ensures CleanPart(Hole("BODY"))
  {
  }

  lemma ExpectedTitleClean()
    ensures CleanPart(Hole("EXPECTED_TITLE"))
  {
  }

  lemma PostsQueryClean()
    ensures Clean(POSTS_QUERY)
  {
    Posts0AngleFree();
    Posts2AngleFree();
    Posts4AngleFree();
    var p := POSTS_QUERY;
    RepoOwnerClean();
    BlogRepoNameClean();
    CleanParts(p);
  }

  lemma Discussions0AngleFree()
    ensures '<' !in DISCUSSIONS_0
  {
  }

  lemma Discussions2AngleFree()
    ensures '<' !in DISCUSSIONS_2
  {
  }

  lemma Discussions4AngleFree()
    ensures '<' !in DISCUSSIONS_4
  {
  }

  lemma Discussions6AngleFree()
    ensures '<' !in DISCUSSIONS_6
  {
  }

  lemma DiscussionsQueryClean()
    ensures Clean(DISCUSSIONS_QUERY)
  {
    Discussions0AngleFree();
    Discussions2AngleFree();
    Discussions4AngleFree();
    Discussions6AngleFree();
    var p := DISCUSSIONS_QUERY;
    RepoOwnerClean();
    DiscussionRepoNameClean();
    CategoryidClean();
    CleanParts(p);
  }

  lemma Mutation0AngleFree()
    ensures '<' !in MUTATION_0
  {
  }

  lemma Mutation2AngleFree()
    ensures '<' !in MUTATION_2
  {
  }

  lemma Mutation4AngleFree()
    ensures '<' !in MUTATION_4
  {
  }

  lemma Mutation6AngleFree()
    ensures '<' !in MUTATION_6
  {
  }

  lemma Mutation8AngleFree()
    ensures '<' !in MUTATION_8
  {
  }

  lemma CreateMutationClean()
    ensures Clean(CREATE_MUTATION)
  {
    Mutation0AngleFree();
    Mutation2AngleFree();
    Mutation4AngleFree();
    Mutation6AngleFree();
    Mutation8AngleFree();
    var p := CREATE_MUTATION;
    RepositoryidClean();
    CategoryidClean();
    BodyClean();
    ExpectedTitleClean();
    CleanParts(p);
  }

  /** The posts query after its chained `.replace`. */
  function PostsQuery(m: map<string, string>): string
  {
    ReplaceChain(Flatten(POSTS_QUERY), PostsPairs(Setting(m, "repo_owner"), Setting(m, "blog_repo_name")))
  }

  function PostsPairs(owner: string, repo: string): seq<(string, string)>
  {
    [("REPO_OWNER", owner), ("BLOG_REPO_NAME", repo)]
  }

  /** The discussions query after its chained `.replace`. */
  function DiscussionsQuery(m: map<string, string>): string
  {
    ReplaceChain(Flatten(DISCUSSIONS_QUERY), DiscussionsPairs(Setting(m, "repo_owner"),
      Setting(m, "discussion_repo_name"), Setting(m, "discussion_category_id")))
  }

  function DiscussionsPairs(owner: string, repo: string, category: string): seq<(string, string)>
  {
    [("REPO_OWNER", owner), ("DISCUSSION_REPO_NAME", repo), ("CATEGORYID", category)]
  }

  /**
   * A template of three texts around two placeholders, each bound to a
   * value, renders as the texts with the values between them.
   */
  lemma RenderTwo(c: seq<Part>, pairs: seq<(string, string)>, v: seq<string>)
    requires |c| == 5 && |v| == 2
    requires c[0].Text? && c[2].Text? && c[4].Text?
    requires forall k :: 0 <= k < 2 ==> c[2 * k + 1].Hole? && Lookup(pairs, c[2 * k + 1].name) == Some(v[k])
    ensures Render(c, pairs) == c[0].text + (v[0] + (c[2].text + (v[1] + c[4].text)))
  {
    assert c[1].Hole? && Lookup(pairs, c[1].name) == Some(v[0]);
    assert c[3].Hole? && Lookup(pairs, c[3].name) == Some(v[1]);
    assert Render(c[4..], pairs) == c[4].text;
    assert Render(c[3..], pairs) == v[1] + Render(c[4..], pairs);
    assert Render(c[2..], pairs) == c[2].text + Render(c[3..], pairs);
    assert Render(c[1..], pairs) == v[0] + Render(c[2..], pairs);
  }

  /** The same for four texts around three placeholders. */
  lemma RenderThree(c: seq<Part>, pairs: seq<(string, string)>, v: seq<string>)
    requires |c| == 7 && |v| == 3
    requires c[0].Text? && c[2].Text? && c[4].Text? && c[6].Text?
    requires forall k :: 0 <= k < 3 ==> c[2 * k + 1].Hole? && Lookup(pairs, c[2 * k + 1].name) == Some(v[k])
    ensures Render(c, pairs) == c[0].text + (v[0] + (c[2].text + (v[1] + (c[4].text + (v[2] + c[6].text)))))
  {
    assert c[1].Hole? && Lookup(pairs, c[1].name) == Some(v[0]);
    assert c[3].Hole? && Lookup(pairs, c[3].name) == Some(v[1]);
    assert c[5].Hole? && Lookup(pairs, c[5].name) == Some(v[2]);
    assert Render(c[6..], pairs) == c[6].text;
    assert Render(c[5..], pairs) == v[2] + Render(c[6..], pairs);
    assert Render(c[4..], pairs) == c[4].text + Render(c[5..], pairs);
    assert Render(c[3..], pairs) == v[1] + Render(c[4..], pairs);
    assert Render(c[2..], pairs) == c[2].text + Render(c[3..], pairs);
    assert Render(c[1..], pairs) == v[0] + Render(c[2..], pairs);
  }

  /** The posts query rendered with its two values: each sits in its own place. */
  lemma PostsRender(owner: string, repo: string)
    ensures Render(POSTS_QUERY, PostsPairs(owner, repo)) == POSTS_0 + (owner + (POSTS_2 + (repo + POSTS_4)))
  {
    var pairs := PostsPairs(owner, repo);
    assert "REPO_OWNER" != "BLOG_REPO_NAME";
    assert Lookup(pairs[1..], "BLOG_REPO_NAME") == Some(repo);
    RenderTwo(POSTS_QUERY, pairs, [owner, repo]);
  }

  /**
   * With no `<` in the owner or the repository name, the posts query
   * sent names that owner and that repository in their places.
   */
  lemma PostsQueryFilled(m: map<string, string>)
    requires '<' !in Setting(m, "repo_owner") && '<' !in Setting(m, "blog_repo_name")
    ensures PostsQuery(m) == POSTS_0 + (Setting(m, "repo_owner") + (POSTS_2 + (Setting(m, "blog_repo_name") + POSTS_4)))
  {
    var owner, repo := Setting(m, "repo_owner"), Setting(m, "blog_repo_name");
    var pairs := PostsPairs(owner, repo);
    RepoOwnerClean();
    BlogRepoNameClean();
    assert CleanPairs(pairs);
    PostsQueryClean();
    Substitution(POSTS_QUERY, pairs);
    PostsRender(owner, repo);
  }

  lemma DiscussionsLookups(owner: string, repo: string, category: string)
    ensures Lookup(DiscussionsPairs(owner, repo, category), "REPO_OWNER") == Some(owner)
    ensures Lookup(DiscussionsPairs(owner, repo, category), "DISCUSSION_REPO_NAME") == Some(repo)
    ensures Lookup(DiscussionsPairs(owner, repo, category), "CATEGORYID") == Some(category)
  {
    var pairs := DiscussionsPairs(owner, repo, category);
    assert "REPO_OWNER" != "DISCUSSION_REPO_NAME" && "REPO_OWNER" != "CATEGORYID" && "DISCUSSION_REPO_NAME" != "CATEGORYID";
    assert Lookup(pairs[2..], "CATEGORYID") == Some(category);
    assert Lookup(pairs[1..], "CATEGORYID") == Some(category);
    assert Lookup(pairs[1..], "DISCUSSION_REPO_NAME") == Some(repo);
  }

  /** The discussions query rendered with its three values: each sits in its own place. */
  lemma DiscussionsRender(owner: string, repo: string, category: string)
    ensures Render(DISCUSSIONS_QUERY, DiscussionsPairs(owner, repo, category))
      == DISCUSSIONS_0 + (owner + (DISCUSSIONS_2 + (repo + (DISCUSSIONS_4 + (category + DISCUSSIONS_6)))))
  {
    DiscussionsLookups(owner, repo, category);
    RenderThree(DISCUSSIONS_QUERY, DiscussionsPairs(owner, repo, category), [owner, repo, category]);
  }

  /**
   * With no `<` in the owner, the repository name or the category, the
   * discussions query sent names them in their places.
   */
  lemma DiscussionsQueryFilled(m: map<string, string>)
    requires '<' !in Setting(m, "repo_owner") && '<' !in Setting(m, "discussion_repo_name")
    requires '<' !in Setting(m, "discussion_category_id")
    ensures DiscussionsQuery(m) == DISCUSSIONS_0 + (Setting(m, "repo_owner") + (DISCUSSIONS_2
      + (Setting(m, "discussion_repo_name") + (DISCUSSIONS_4 + (Setting(m, "discussion_category_id") + DISCUSSIONS_6)))))
  {
    var owner, repo, category := Setting(m, "repo_owner"), Setting(m, "discussion_repo_name"), Setting(m, "discussion_category_id");
    var pairs := DiscussionsPairs(owner, repo, category);
    RepoOwnerClean();
    DiscussionRepoNameClean();
    CategoryidClean();
    assert CleanPairs(pairs);
    DiscussionsQueryClean();
    Substitution(DISCUSSIONS_QUERY, pairs);
    DiscussionsRender(owner, repo, category);
  }

  function CreatePairs(m: map<string, string>, title: string): seq<(string, string)>
  {
    MutationPairs(Setting(m, "discussion_repo_id"), Setting(m, "discussion_category_id"),
      Body(title, Setting(m, "blogsite_url")), title)
  }

  /** The mutation for one missing title, after the chained `.replace`. */
  function CreateQuery(m: map<string, string>, title: string): string
  {
    ReplaceChain(Flatten(CREATE_MUTATION), CreatePairs(m, title))
  }

  function MutationPairs(repo: string, category: string, body: string, title: string): seq<(string, string)>
  {
    [("REPOSITORYID", repo), ("CATEGORYID", category), ("BODY", body), ("EXPECTED_TITLE", title)]
  }

  lemma MutationLookups(repo: string, category: string, body: string, title: string)
    ensures Lookup(MutationPairs(repo, category, body, title), "REPOSITORYID") == Some(repo)
    ensures Lookup(MutationPairs(repo, category, body, title), "CATEGORYID") == Some(category)
    ensures Lookup(MutationPairs(repo, category, body, title), "BODY") == Some(body)
    ensures Lookup(MutationPairs(repo, category, body, title), "EXPECTED_TITLE") == Some(title)
  {
    var pairs := MutationPairs(repo, category, body, title);
    assert "REPOSITORYID" != "CATEGORYID" && "REPOSITORYID" != "BODY" && "CATEGORYID" != "BODY";
    assert "REPOSITORYID" != "EXPECTED_TITLE" && "CATEGORYID" != "EXPECTED_TITLE" && "BODY" != "EXPECTED_TITLE";
    assert Lookup(pairs[3..], "EXPECTED_TITLE") == Some(title);
    assert Lookup(pairs[2..], "EXPECTED_TITLE") == Some(title);
    assert Lookup(pairs[2..], "BODY") == Some(body);
  }

  /** The mutation rendered with its four values: each sits in its own place. */
  lemma MutationRender(repo: string, category: string, body: string, title: string)
    ensures Render(CREATE_MUTATION, MutationPairs(repo, category, body, title))
      == MUTATION_0 + (repo + (MUTATION_2 + (category + (MUTATION_4 + (body + (MUTATION_6 + (title + MUTATION_8)))))))
  {
    MutationLookups(repo, category, body, title);
    RenderFour(CREATE_MUTATION, MutationPairs(repo, category, body, title), [repo, category, body, title]);
  }

  /**
   * A template of five texts around four placeholders, each bound to a
   * value, renders as the texts with the values between them.
   */
  lemma RenderFour(c: seq<Part>, pairs: seq<(string, string)>, v: seq<string>)
    requires |c| == 9 && |v| == 4
    requires c[0].Text? && c[2].Text? && c[4].Text? && c[6].Text? && c[8].Text?
    requires forall k :: 0 <= k < 4 ==> c[2 * k + 1].Hole? && Lookup(pairs, c[2 * k + 1].name) == Some(v[k])
    ensures Render(c, pairs) == c[0].text + (v[0] + (c[2].text + (v[1] + (c[4].text + (v[2] + (c[6].text + (v[3] + c[8].text)))))))
  {
    assert c[1].Hole? && Lookup(pairs, c[1].name) == Some(v[0]);
    assert c[3].Hole? && Lookup(pairs, c[3].name) == Some(v[1]);
    assert c[5].Hole? && Lookup(pairs, c[5].name) == Some(v[2]);
    assert c[7].Hole? && Lookup(pairs, c[7].name) == Some(v[3]);
    assert Render(c[8..], pairs) == c[8].text;
    assert Render(c[7..], pairs) == v[3] + Render(c[8..], pairs);
    assert Render(c[6..], pairs) == c[6].text + Render(c[7..], pairs);
    assert Render(c[5..], pairs) == v[2] + Render(c[6..], pairs);
    assert Render(c[4..], pairs) == c[4].text + Render(c[5..], pairs);
    assert Render(c[3..], pairs) == v[1] + Render(c[4..], pairs);
    assert Render(c[2..], pairs) == c[2].text + Render(c[3..], pairs);
    assert Render(c[1..], pairs) == v[0] + Render(c[2..], pairs);
  }


  /**
   * With no `<` in the settings or the title, the chained `.replace` puts
   * the repository, the category, the body and the title in their places.
   */
  lemma CreateQueryFilled(m: map<string, string>, title: string)
    requires '<' !in Setting(m, "discussion_repo_id") && '<' !in Setting(m, "discussion_category_id")
    requires '<' !in Setting(m, "blogsite_url") && '<' !in title
    ensures CreateQuery(m, title) == MUTATION_0 + (Setting(m, "discussion_repo_id")
      + (MUTATION_2 + (Setting(m, "discussion_category_id")
      + (MUTATION_4 + (Body(title, Setting(m, "blogsite_url"))
      + (MUTATION_6 + (title + MUTATION_8)))))))
  {
    var pairs := CreatePairs(m, title);
    var url := Setting(m, "blogsite_url");
    BodyAngleFree(title, url);
    RepositoryidClean();
    CategoryidClean();
    BodyClean();
    ExpectedTitleClean();
    assert CleanPairs(pairs);
    CreateMutationClean();
    Substitution(CREATE_MUTATION, pairs);
    MutationRender(Setting(m, "discussion_repo_id"), Setting(m, "discussion_category_id"), Body(title, url), title);
  }

  // ---------------------------------------------------------------------
  // The script
  // ---------------------------------------------------------------------

  /** One `requests.post` to the GraphQL endpoint, through `wrap_requests_post`. */
  datatype Request = Request(query: string, headers: map<string, string>)

  /**
   * How the script ends: a settings line that raises, a reply without
   * `entries` (posts) or `totalCount` (discussions), or done.
   */
  datatype Outcome = SettingsError | Exit2(sent: seq<Request>) | Done(sent: seq<Request>)

  /** The creation requests for the missing titles, in order. */
  function Creations(m: map<string, string>, missing: seq<string>): (r: seq<Request>)
    ensures |r| == |missing|
    ensures forall i :: 0 <= i < |missing| ==> r[i] == Request(CreateQuery(m, missing[i]), Authorize(None, Setting(m, "github_token")))
  {
    if missing == [] then []
    else [Request(CreateQuery(m, missing[0]), Authorize(None, Setting(m, "github_token")))] + Creations(m, missing[1..])
  }

  /** The creation loop: one request per expected title without a discussion. */
  method CreateMissing(m: map<string, string>, expected: seq<string>, actual: seq<string>) returns (sent: seq<Request>)
    ensures sent == Creations(m, Missing(expected, actual))
  {
    sent := [];
    for i := 0 to |expected|
      invariant sent == Creations(m, Missing(expected[..i], actual))
    {
      assert expected[..i + 1][..i] == expected[..i];
      var front := Missing(expected[..i], actual);
      assert Missing(expected[..i + 1], actual) == if expected[i] in actual then front else front + [expected[i]];
      if expected[i] !in actual {
        CreationsAppend(m, front, expected[i]);
        var query := CreateQuery(m, expected[i]);
        sent := sent + [Request(query, Authorize(None, Setting(m, "github_token")))];
      }
    }
    assert expected[..|expected|] == expected;
  }

  lemma CreationsAppend(m: map<string, string>, missing: seq<string>, t: string)
    ensures Creations(m, missing + [t]) == Creations(m, missing) + [Request(CreateQuery(m, t), Authorize(None, Setting(m, "github_token")))]
  {
    var r := Creations(m, missing + [t]);
    var a := Creations(m, missing);
    var x := Request(CreateQuery(m, t), Authorize(None, Setting(m, "github_token")));
    forall i | 0 <= i < |r|
      ensures r[i] == (a + [x])[i]
    {
      if i < |missing| {
        assert (missing + [t])[i] == missing[i];
      } else {
        assert (missing + [t])[i] == t;
      }
    }
    assert r == a + [x];
  }

  /**
   * The whole run: the settings, the posts query, the discussions query,
   * then one mutation per expected title without a discussion.  A posts
   * reply without `entries` or a discussions reply without `totalCount`
   * (the two fields read inside a `try`) is None, and ends the run with
   * exit status 2 after the request that fetched it.
   */
  function Script(lines: seq<string>, posts: Option<seq<string>>, discussions: Option<seq<string>>): Outcome
  {
    match Settings(lines)
    case None => SettingsError
    case Some(m) =>
      var auth := Authorize(None, Setting(m, "github_token"));
      var created := if posts.Some? && discussions.Some?
        then Creations(m, Missing(Titles(posts.value), discussions.value)) else [];
      Flow(auth, PostsQuery(m), DiscussionsQuery(m), posts.Some?, discussions.Some?, created)
  }

  /**
   * The run once the settings are read: the two queries, then, when both
   * answered, the creations; every request carries the same headers.
   */
  function Flow(auth: map<string, string>, postsQuery: string, discussionsQuery: string,
                postsRead: bool, discussionsRead: bool, created: seq<Request>): (o: Outcome)
    requires forall i :: 0 <= i < |created| ==> created[i].headers == auth
    ensures o.Exit2? || o.Done?
    ensures forall r :: r in o.sent ==> r.headers == auth
    ensures postsRead && discussionsRead ==>
      o.Done? && |o.sent| == 2 + |created| && forall i :: 0 <= i < |created| ==> o.sent[2 + i] == created[i]
  {
    var first := [Request(postsQuery, auth)];
    if !postsRead then Exit2(first)
    else
      var second := first + [Request(discussionsQuery, auth)];
      if !discussionsRead then Exit2(second)
      else
        AllCarry(second, created, auth);
        Done(second + created)
  }

  /** The script's top level, statement by statement. */
  method Sync(lines: seq<string>, posts: Option<seq<string>>, discussions: Option<seq<string>>) returns (outcome: Outcome)
    ensures outcome == Script(lines, posts, discussions)
  {
    var settings := ReadSettings(lines);
    if settings.None? {
      return SettingsError;
    }
    var m := settings.value;
    var auth := Authorize(None, Setting(m, "github_token"));
    var sent := [Request(PostsQuery(m), auth)];
    if posts.None? {
      return Exit2(sent);
    }
    var expected := ExpectedTitles(posts.value);
    sent := sent + [Request(DiscussionsQuery(m), auth)];
    if discussions.None? {
      return Exit2(sent);
    }
    var created := CreateMissing(m, expected, discussions.value);
    return Done(sent + created);
  }

  /** Every request of a run carries the token the settings end with. */
  lemma ScriptAuthorizes(lines: seq<string>, posts: Option<seq<string>>, discussions: Option<seq<string>>)
    requires Settings(lines).Some?
    ensures var o := Script(lines, posts, discussions);
      o.Exit2? || o.Done?
    ensures var o := Script(lines, posts, discussions);
      forall r :: r in o.sent ==>
        r.headers == map["Authorization" := "token " + Setting(Settings(lines).value, "github_token")]
  {
  }

  /** Requests that all carry the same headers, one batch after another. */
  lemma AllCarry(a: seq<Request>, b: seq<Request>, auth: map<string, string>)
    requires forall i :: 0 <= i < |a| ==> a[i].headers == auth
    requires forall i :: 0 <= i < |b| ==> b[i].headers == auth
    ensures forall r :: r in a + b ==> r.headers == auth
  {
    forall r | r in a + b
      ensures r.headers == auth
    {
      var i :| 0 <= i < |a + b| && (a + b)[i] == r;
      if i >= |a| {
        assert r == b[i - |a|];
      }
    }
  }

  /**
   * A completed run sends the two listings and then one mutation for each
   * expected title without a discussion, each for that title.
   */
  lemma ScriptCreates(lines: seq<string>, posts: seq<string>, discussions: seq<string>)
    requires Settings(lines).Some?
    ensures var o := Script(lines, Some(posts), Some(discussions));
      var missing := Missing(Titles(posts), discussions);
      o.Done? && |o.sent| == 2 + |missing|
      && forall i :: 0 <= i < |missing| ==> o.sent[2 + i].query == CreateQuery(Settings(lines).value, missing[i])
  {
    var m := Settings(lines).value;
    var created := Creations(m, Missing(Titles(posts), discussions));
    var auth := Authorize(None, Setting(m, "github_token"));
    assert Script(lines, Some(posts), Some(discussions)) == Flow(auth, PostsQuery(m), DiscussionsQuery(m), true, true, created);
  }

  /**
   * Run again once every post has its discussion, the script creates
   * nothing: it only lists.
   */
  lemma ScriptIdempotent(lines: seq<string>, posts: seq<string>, discussions: seq<string>)
    requires Settings(lines).Some?
    requires forall t :: t in Titles(posts) ==> t in discussions
    ensures var o := Script(lines, Some(posts), Some(discussions));
      o.Done? && |o.sent| == 2
  {
    MissingCounts(Titles(posts), discussions);
    var missing := Missing(Titles(posts), discussions);
    assert multiset(missing) == multiset{};
    assert |missing| == |multiset(missing)|;
  }
}
