/**
 * svg2png.py: convert every `.svg` file of the current folder to a `.png`
 * of the same name, never overwriting a file that already exists.
 *
 * The folder is the set of names that `os.path.isfile` holds true for; the
 * listing of `os.listdir` is an input (its names are distinct).  Rendering
 * is not modelled: a conversion is the creation of its output file.
 */
module Svg2Png {
  import opened PyText

  /** `name.endswith('.svg')`: a plain suffix test, dot included. */
  predicate IsSvg(name: string)
  {
    EndsWith(name, ".svg")
  }

  /** `re.sub(r".svg$", ".png", name)`: the dot of the pattern is any character but a newline. */
  function OutputName(name: string): string
  {
    DotSuffixSub(name, "svg", ".png")
  }

  /** For a name that ends in `.svg`, the output name swaps that suffix for `.png`. */
  lemma OutputOfSvg(name: string)
    requires IsSvg(name)
    ensures OutputName(name) == name[..|name| - 4] + ".png"
  {
    assert name[|name| - 4..] == ".svg";
    assert name[|name| - 1] == 'g';
    assert DotSuffixAt(name, "svg", |name|);
  }

  /** The pattern's dot is unescaped: any character but a newline before `svg` is replaced too. */
  lemma OutputAnyDot(stem: string, c: char)
    requires c != '\n'
    ensures OutputName(stem + [c] + "svg") == stem + ".png"
  {
    var s := stem + [c] + "svg";
    assert s[|s| - 4] == c && s[|s| - 3..] == "svg" && s[|s| - 1] == 'g';
    assert DotSuffixAt(s, "svg", |s|);
    assert s[..|s| - 4] == stem;
  }

  /** An output is a `.png`: it is never itself an input, nor the name it came from. */
  lemma OutputNotSvg(name: string)
    requires IsSvg(name)
    ensures !IsSvg(OutputName(name)) && OutputName(name) != name
  {
    OutputOfSvg(name);
    var out := OutputName(name);
    assert out[|out| - 1] == 'g';
    assert out[|out| - 2] == 'n';
    assert name[|name| - 2] == 'v';
  }

  /** Distinct inputs have distinct outputs. */
  lemma OutputInjective(a: string, b: string)
    requires IsSvg(a) && IsSvg(b) && OutputName(a) == OutputName(b)
    ensures a == b
  {
    OutputOfSvg(a);
    OutputOfSvg(b);
    var stem := a[..|a| - 4];
    assert |a| == |b|;
    assert stem == OutputName(a)[..|a| - 4] == b[..|b| - 4];
    assert a == stem + ".svg" && b == stem + ".svg";
  }

  /** What the loop reports for one input: the output was created, or it existed and was skipped. */
  datatype Event = Created(output: string) | Skipped(output: string)

  /**
   * The loop over the listing, entry by entry: the events, and the files
   * afterwards.  Whether an output exists is asked of the folder as the
   * earlier entries left it.
   */
  function Run(listing: seq<string>, files: set<string>): (r: (seq<Event>, set<string>))
    decreases |listing|
  {
    if listing == [] then ([], files)
    else
      var (log, now) := Run(listing[..|listing| - 1], files);
      var name := listing[|listing| - 1];
      if !IsSvg(name) then (log, now)
      else if OutputName(name) in now then (log + [Skipped(OutputName(name))], now)
      else (log + [Created(OutputName(name))], now + {OutputName(name)})
  }

  /** The entries that are considered, in listing order. */
  function Svgs(listing: seq<string>): (r: seq<string>)
    ensures forall k :: 0 <= k < |r| ==> IsSvg(r[k]) && r[k] in listing
    ensures forall name :: name in listing && IsSvg(name) ==> name in r
    decreases |listing|
  {
    if listing == [] then []
    else
      var front := Svgs(listing[..|listing| - 1]);
      assert forall name :: name in listing[..|listing| - 1] ==> name in listing;
      var name := listing[|listing| - 1];
      if IsSvg(name) then front + [name] else front
  }

  /**
   * The reference: every considered entry, in listing order, is created
   * when its output did not exist before the run and skipped otherwise.
   */
  function Expected(listing: seq<string>, files: set<string>): (r: seq<Event>)
    ensures |r| == |Svgs(listing)|
    ensures forall k :: 0 <= k < |r| ==>
      r[k].output == OutputName(Svgs(listing)[k]) && (r[k].Created? <==> r[k].output !in files)
    decreases |listing|
  {
    if listing == [] then []
    else
      var front := Expected(listing[..|listing| - 1], files);
      var name := listing[|listing| - 1];
      if !IsSvg(name) then front
      else if OutputName(name) in files then front + [Skipped(OutputName(name))]
      else front + [Created(OutputName(name))]
  }

  /** The outputs of the considered entries. */
  function Outputs(listing: seq<string>): (r: set<string>)
    decreases |listing|
  {
    if listing == [] then {}
    else
      var name := listing[|listing| - 1];
      Outputs(listing[..|listing| - 1]) + (if IsSvg(name) then {OutputName(name)} else {})
  }

  /** An entry's output is the output of no other entry. */
  lemma {:induction false} OutputFresh(listing: seq<string>, name: string)
    requires IsSvg(name) && name !in listing
    ensures OutputName(name) !in Outputs(listing)
    decreases |listing|
  {
    if listing != [] {
      var last := listing[|listing| - 1];
      OutputFresh(listing[..|listing| - 1], name);
      if IsSvg(last) && OutputName(last) == OutputName(name) {
        OutputInjective(last, name);
      }
    }
  }

  /**
   * With distinct listing entries, a conversion never makes another entry
   * be skipped: the run is the reference, and afterwards the folder holds
   * every output besides what it held.
   */
  lemma {:induction false} RunIsExpected(listing: seq<string>, files: set<string>)
    requires forall k, l :: 0 <= k < l < |listing| ==> listing[k] != listing[l]
    ensures Run(listing, files).0 == Expected(listing, files)
    ensures Run(listing, files).1 == files + Outputs(listing)
    decreases |listing|
  {
    if listing != [] {
      var front := listing[..|listing| - 1];
      var name := listing[|listing| - 1];
      RunIsExpected(front, files);
      if IsSvg(name) {
        assert name !in front by {
          forall k | 0 <= k < |front| ensures front[k] != name {
            assert front[k] == listing[k];
          }
        }
        OutputFresh(front, name);
      }
    }
  }

  /**
   * No existing file is overwritten, whatever the listing: every created
   * output was absent before the run, and no output is reported twice
   * unless skipped; nothing is removed from the folder.
   */
  lemma {:induction false} NeverOverwrites(listing: seq<string>, files: set<string>)
    ensures files <= Run(listing, files).1
    ensures forall k :: 0 <= k < |Run(listing, files).0| && Run(listing, files).0[k].Created? ==>
      Run(listing, files).0[k].output !in files
    ensures forall k, l :: 0 <= k < l < |Run(listing, files).0| && Run(listing, files).0[l].Created? ==>
      Run(listing, files).0[k].output != Run(listing, files).0[l].output
    decreases |listing|
  {
    if listing != [] {
      var front := listing[..|listing| - 1];
      NeverOverwrites(front, files);
      var log := Run(front, files).0;
      forall k | 0 <= k < |log|
        ensures log[k].output in Run(front, files).1
      {
        ReportedExists(front, files, k);
      }
    }
  }

  /** Every reported output exists after the run. */
  lemma {:induction false} ReportedExists(listing: seq<string>, files: set<string>, k: nat)
    requires k < |Run(listing, files).0|
    ensures Run(listing, files).0[k].output in Run(listing, files).1
    decreases |listing|
  {
    var front := listing[..|listing| - 1];
    if k < |Run(front, files).0| {
      ReportedExists(front, files, k);
    }
  }

  /** The folder, as `os.path.isfile` sees it. */
  class Folder {
    var files: set<string>

    constructor(files0: set<string>)
      ensures files == files0
    {
      files := files0;
    }

    /** `main`: the loop over the listing. */
    method Convert(listing: seq<string>) returns (log: seq<Event>)
      modifies this
      ensures (log, files) == Run(listing, old(files))
    {
      log := [];
      for i := 0 to |listing|
        invariant (log, files) == Run(listing[..i], old(files))
      {
        assert listing[..i + 1][..i] == listing[..i];
        var name := listing[i];
        if IsSvg(name) {
          var output := OutputName(name);
          if output !in files {
            files := files + {output};
            log := log + [Created(output)];
          } else {
            log := log + [Skipped(output)];
          }
        }
      }
      assert listing[..|listing|] == listing;
    }
  }
}
