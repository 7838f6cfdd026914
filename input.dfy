/** Target collection (main.go's collectURLs and the line filter of
    readURLsFromFile). The file system is abstract: whether a path names a
    regular file, and the lines of that file or None when opening or
    scanning it fails. */
module Input {
  import opened Types
  import Text
  import Normalizer

  datatype FileSystem = FileSystem(isFile: string -> bool, readLines: string -> Option<seq<string>>)

  /** A trimmed line is kept when it is not empty and is not a comment. */
  predicate KeepLine(line: string) {
    line != "" && !Text.HasPrefix(line, "#")
  }

  /** The URLs a file's lines yield: each line trimmed, blank lines and
      comment lines dropped, in line order. */
  function UrlLines(lines: seq<string>): seq<string>
    decreases |lines|
  {
    if lines == [] then []
    else
      var line := Text.TrimSpace(lines[|lines| - 1]);
      UrlLines(lines[..|lines| - 1]) + if KeepLine(line) then [line] else []
  }

  /** Every URL UrlLines yields is a kept line and the trimmed form of some
      input line (so, by Text.TrimSpaceEnds, it has no white space at either
      end); there are no more URLs than lines. */
  lemma {:induction false} UrlLinesSound(lines: seq<string>)
    ensures |UrlLines(lines)| <= |lines|
    ensures forall u :: u in UrlLines(lines) ==>
              KeepLine(u) && exists line :: line in lines && Text.TrimSpace(line) == u
    decreases |lines|
  {
    if lines != [] {
      var init, last := lines[..|lines| - 1], lines[|lines| - 1];
      assert lines == init + [last];
      UrlLinesSound(init);
      var t := Text.TrimSpace(last);
      forall u | u in UrlLines(lines)
        ensures KeepLine(u)
        ensures exists line :: line in lines && Text.TrimSpace(line) == u
      {
        if u in UrlLines(init) {
          var line :| line in init && Text.TrimSpace(line) == u;
          assert line in lines;
        } else {
          assert u == t && last in lines;
        }
      }
    }
  }

  /** Every input line whose trimmed form is kept contributes that form. */
  lemma {:induction false} UrlLinesComplete(lines: seq<string>)
    ensures forall line :: line in lines && KeepLine(Text.TrimSpace(line)) ==> Text.TrimSpace(line) in UrlLines(lines)
    decreases |lines|
  {
    if lines != [] {
      var init, last := lines[..|lines| - 1], lines[|lines| - 1];
      assert lines == init + [last];
      UrlLinesComplete(init);
      forall line | line in lines && KeepLine(Text.TrimSpace(line))
        ensures Text.TrimSpace(line) in UrlLines(lines)
      {
        if line != last {
          assert line in init;
        }
      }
    }
  }

  /** The URL lines of concatenated line lists are those of each list in
      turn, so URLs keep the order of their lines. */
  lemma {:induction false} UrlLinesAppend(a: seq<string>, b: seq<string>)
    ensures UrlLines(a + b) == UrlLines(a) + UrlLines(b)
    decreases |b|
  {
    if b == [] {
      assert a + b == a;
    } else {
      var init := b[..|b| - 1];
      assert (a + b)[..|a + b| - 1] == a + init;
      UrlLinesAppend(a, init);
    }
  }

  /** Extending the prefix of lines by one adds at most that line's trimmed
      form. */
  lemma UrlLinesPrefix(lines: seq<string>, i: int)
    requires 0 <= i < |lines|
    ensures UrlLines(lines[..i + 1])
         == UrlLines(lines[..i]) + (var t := Text.TrimSpace(lines[i]); if KeepLine(t) then [t] else [])
  {
    assert lines[..i + 1][..i] == lines[..i];
  }

  /** The line filter of readURLsFromFile. */
  method ReadUrlLines(lines: seq<string>) returns (urls: seq<string>)
    ensures urls == UrlLines(lines)
  {
    urls := [];
    for i := 0 to |lines|
      invariant urls == UrlLines(lines[..i])
    {
      UrlLinesPrefix(lines, i);
      var line := Text.TrimSpace(lines[i]);
      if line != "" && !Text.HasPrefix(line, "#") {
        urls := urls + [line];
      }
    }
    assert lines[..|lines|] == lines;
  }

  /** The raw strings one argument contributes: the URL lines of a readable
      file, nothing for a file that cannot be read, the argument itself when
      it is not a file. */
  function ArgUrls(arg: string, fs: FileSystem): seq<string> {
    if fs.isFile(arg) then
      match fs.readLines(arg)
      case None => []
      case Some(lines) => UrlLines(lines)
    else [arg]
  }

  /** The raw strings of all arguments, in argument order. */
  function RawUrls(args: seq<string>, fs: FileSystem): seq<string>
    decreases |args|
  {
    if args == [] then [] else RawUrls(args[..|args| - 1], fs) + ArgUrls(args[|args| - 1], fs)
  }

  /** The normalised targets of the raw strings that normalise, in order. */
  function FirebaseTargets(raws: seq<string>, parse: Normalizer.UrlParser): seq<string>
    decreases |raws|
  {
    if raws == [] then []
    else
      var target := Normalizer.ProcessFirebaseUrl(raws[|raws| - 1], parse);
      FirebaseTargets(raws[..|raws| - 1], parse) + if target != "" then [target] else []
  }

  /** The targets of concatenated raw lists are those of each list in turn,
      so targets keep the order of the raw strings they come from. */
  lemma {:induction false} FirebaseTargetsAppend(a: seq<string>, b: seq<string>, parse: Normalizer.UrlParser)
    ensures FirebaseTargets(a + b, parse) == FirebaseTargets(a, parse) + FirebaseTargets(b, parse)
    decreases |b|
  {
    if b == [] {
      assert a + b == a;
    } else {
      var init := b[..|b| - 1];
      assert (a + b)[..|a + b| - 1] == a + init;
      FirebaseTargetsAppend(a, init, parse);
    }
  }

  /** Extending the prefix of raw strings by one adds at most that string's
      target. */
  lemma FirebaseTargetsPrefix(raws: seq<string>, i: int, parse: Normalizer.UrlParser)
    requires 0 <= i < |raws|
    ensures FirebaseTargets(raws[..i + 1], parse)
         == FirebaseTargets(raws[..i], parse) + (var t := Normalizer.ProcessFirebaseUrl(raws[i], parse); if t != "" then [t] else [])
  {
    assert raws[..i + 1][..i] == raws[..i];
  }

  /** Every target is the root URL of the parse of some raw string that
      mentions Firebase, and every such raw string contributes its root URL. */
  lemma {:induction false} FirebaseTargetsSpec(raws: seq<string>, parse: Normalizer.UrlParser)
    ensures |FirebaseTargets(raws, parse)| <= |raws|
    ensures forall t :: t in FirebaseTargets(raws, parse) ==>
              exists raw :: raw in raws && Normalizer.MentionsFirebase(raw) && parse(raw).Some?
                            && t == Normalizer.RootUrl(parse(raw).value)
    ensures forall raw :: raw in raws && Normalizer.MentionsFirebase(raw) && parse(raw).Some? ==>
              Normalizer.RootUrl(parse(raw).value) in FirebaseTargets(raws, parse)
    decreases |raws|
  {
    if raws != [] {
      var init, raw := raws[..|raws| - 1], raws[|raws| - 1];
      assert raws == init + [raw];
      FirebaseTargetsSpec(init, parse);
      Normalizer.AcceptedIffNonEmpty(raw, parse);
      var t := Normalizer.ProcessFirebaseUrl(raw, parse);
      assert FirebaseTargets(raws, parse) == FirebaseTargets(init, parse) + if t != "" then [t] else [];
      forall x | x in raws && Normalizer.MentionsFirebase(x) && parse(x).Some?
        ensures Normalizer.RootUrl(parse(x).value) in FirebaseTargets(raws, parse)
      {
        if x != raw {
          assert x in init;
        }
      }
      forall u | u in FirebaseTargets(raws, parse)
        ensures exists x :: x in raws && Normalizer.MentionsFirebase(x) && parse(x).Some?
                            && u == Normalizer.RootUrl(parse(x).value)
      {
        if u in FirebaseTargets(init, parse) {
          var x :| x in init && Normalizer.MentionsFirebase(x) && parse(x).Some? && u == Normalizer.RootUrl(parse(x).value);
          assert x in raws;
        } else {
          assert u == t && raw in raws;
        }
      }
    }
  }

  /** The targets collectURLs produces. */
  function Targets(args: seq<string>, fs: FileSystem, parse: Normalizer.UrlParser): seq<string> {
    FirebaseTargets(RawUrls(args, fs), parse)
  }

  /** collectURLs: expand the arguments, then keep the normalised form of
      every raw string that normalises. */
  method CollectUrls(args: seq<string>, fs: FileSystem, parse: Normalizer.UrlParser) returns (firebaseUrls: seq<string>)
    ensures firebaseUrls == Targets(args, fs, parse)
  {
    var urls: seq<string> := [];
    for i := 0 to |args|
      invariant urls == RawUrls(args[..i], fs)
    {
      var arg := args[i];
      assert args[..i + 1][..i] == args[..i];
      assert RawUrls(args[..i + 1], fs) == urls + ArgUrls(arg, fs);
      if fs.isFile(arg) {
        var read := fs.readLines(arg);
        if read.None? {
          continue;
        }
        var fileUrls := ReadUrlLines(read.value);
        urls := urls + fileUrls;
      } else {
        urls := urls + [arg];
      }
    }
    assert args[..|args|] == args;

    firebaseUrls := [];
    for i := 0 to |urls|
      invariant firebaseUrls == FirebaseTargets(urls[..i], parse)
    {
      FirebaseTargetsPrefix(urls, i, parse);
      var processedUrl := Normalizer.ProcessFirebaseUrl(urls[i], parse);
      if processedUrl != "" {
        firebaseUrls := firebaseUrls + [processedUrl];
      }
    }
    assert urls[..|urls|] == urls;
  }
}
