/** The manifest text format (src/coding/format.cc:3-35). */
module ManifestFormat {
  import opened Tools

  datatype Manifest = Manifest(pathToManifest: string, pathToLog: string, dataFiles: seq<seq<string>>)

  // The line of a level, without its end.
  function Line(level: seq<string>): string {
    Shortened(Ended(level, ';'))
  }

  function Lines(levels: seq<seq<string>>): (r: seq<string>)
    ensures |r| == |levels| && forall i :: 0 <= i < |levels| ==> r[i] == Line(levels[i])
  {
    seq(|levels|, i requires 0 <= i < |levels| => Line(levels[i]))
  }

  // The lines of the text.
  function AllLines(m: Manifest): seq<string> {
    [m.pathToManifest, m.pathToLog] + Lines(m.dataFiles)
  }

  function Encoded(m: Manifest): string {
    Ended(AllLines(m), '\n')
  }

  // Reading lines[0] and lines[1] is undefined behaviour for a shorter text.
  predicate Readable(text: string) {
    |Pieces(text, '\n')| >= 2
  }

  function Levels(lines: seq<string>): (r: seq<seq<string>>)
    ensures |r| == |lines| && forall i :: 0 <= i < |lines| ==> r[i] == Pieces(lines[i], ';')
  {
    seq(|lines|, i requires 0 <= i < |lines| => Pieces(lines[i], ';'))
  }

  function Decoded(text: string): Manifest
    requires Readable(text)
  {
    var lines := Pieces(text, '\n');
    Manifest(lines[0], lines[1], Levels(lines[2..]))
  }

  // ---------------------------------------------------------------- the loops

  // The text of one level: names ended by ';', the last ';' replaced by the end of the line.
  method EncodeLevel(level: seq<string>) returns (line: string)
    ensures line == Line(level) + "\n"
  {
    line := "";
    for i := 0 to |level|
      invariant line == Ended(level[..i], ';')
    {
      assert level[..i + 1] == level[..i] + [level[i]];
      EndedMore(level[..i], level[i], ';');
      line := line + level[i] + ";";
    }
    assert level[..|level|] == level;
    if line == "" {
      line := line + "\n";
    } else {
      line := line[|line| - 1 := '\n'];
    }
  }

  method Encode(m: Manifest) returns (text: string)
    ensures text == Encoded(m)
  {
    text := m.pathToManifest + "\n" + m.pathToLog + "\n";
    ghost var parts := AllLines(m);
    EndedMore([], m.pathToManifest, '\n');
    EndedMore([m.pathToManifest], m.pathToLog, '\n');
    assert [] + [m.pathToManifest] == [m.pathToManifest];
    assert parts[..2] == [m.pathToManifest] + [m.pathToLog];
    for i := 0 to |m.dataFiles|
      invariant text == Ended(parts[..i + 2], '\n')
    {
      var line := EncodeLevel(m.dataFiles[i]);
      assert parts[..i + 3] == parts[..i + 2] + [Line(m.dataFiles[i])];
      EndedMore(parts[..i + 2], Line(m.dataFiles[i]), '\n');
      text := text + line;
    }
    assert parts[..|m.dataFiles| + 2] == parts;
  }

  method Decode(text: string) returns (m: Manifest)
    requires Readable(text)
    ensures m == Decoded(text)
  {
    var lines := Split(text, '\n');
    var dataFiles := [];
    for i := 2 to |lines|
      invariant dataFiles == Levels(lines[2..])[..i - 2]
    {
      var level := Split(lines[i], ';');
      dataFiles := dataFiles + [level];
    }
    m := Manifest(lines[0], lines[1], dataFiles);
  }

  // ---------------------------------------------------------------- round trip

  predicate NoSeparators(m: Manifest) {
    && '\n' !in m.pathToManifest && '\n' !in m.pathToLog
    && forall level <- m.dataFiles, name <- level :: '\n' !in name && ';' !in name
  }

  /** The manifests that can be read back. */
  predicate Clean(m: Manifest) {
    NoSeparators(m) && forall level <- m.dataFiles :: level != [] ==> level[|level| - 1] != ""
  }

  // What is read back of a level.
  function Trimmed(level: seq<string>): seq<string> {
    if level != [] && level[|level| - 1] == "" then level[..|level| - 1] else level
  }

  lemma LevelRoundTrip(level: seq<string>)
    requires forall name <- level :: ';' !in name
    ensures Pieces(Line(level), ';') == Trimmed(level)
  {
    if level != [] {
      if level[|level| - 1] == "" {
        PiecesOfOpenEnded(level, ';');
      } else {
        PiecesOfJoined(level, ';');
      }
    }
  }

  lemma {:induction false} EndedChars(parts: seq<string>, c: char, x: char)
    requires x != c && forall p <- parts :: x !in p
    ensures x !in Ended(parts, c)
  {
    if parts != [] {
      EndedChars(parts[1..], c, x);
    }
  }

  lemma LineIsClean(level: seq<string>)
    requires forall name <- level :: '\n' !in name
    ensures '\n' !in Line(level)
  {
    EndedChars(level, ';', '\n');
  }

  lemma LinesAreClean(m: Manifest)
    requires NoSeparators(m)
    ensures forall p <- AllLines(m) :: '\n' !in p
  {
    forall k | 0 <= k < |AllLines(m)|
      ensures '\n' !in AllLines(m)[k]
    {
      if k >= 2 {
        assert m.dataFiles[k - 2] in m.dataFiles;
        LineIsClean(m.dataFiles[k - 2]);
      }
    }
  }

  lemma EncodedLines(m: Manifest)
    requires NoSeparators(m)
    ensures Pieces(Encoded(m), '\n') == AllLines(m)
  {
    LinesAreClean(m);
    PiecesOfEnded(AllLines(m), '\n');
  }

  /** Every level comes back, but for an empty last name. */
  lemma DecodeAfterEncode(m: Manifest)
    requires NoSeparators(m)
    ensures Readable(Encoded(m))
    ensures var d := Decoded(Encoded(m));
            && d.pathToManifest == m.pathToManifest && d.pathToLog == m.pathToLog
            && |d.dataFiles| == |m.dataFiles|
            && forall i :: 0 <= i < |m.dataFiles| ==> d.dataFiles[i] == Trimmed(m.dataFiles[i])
  {
    EncodedLines(m);
    assert AllLines(m)[2..] == Lines(m.dataFiles);
    forall i | 0 <= i < |m.dataFiles|
      ensures Pieces(Line(m.dataFiles[i]), ';') == Trimmed(m.dataFiles[i])
    {
      assert m.dataFiles[i] in m.dataFiles;
      LevelRoundTrip(m.dataFiles[i]);
    }
  }

  lemma DecodedHasNoSeparators(text: string)
    requires Readable(text)
    ensures NoSeparators(Decoded(text))
  {
    PiecesAreClean(text, '\n');
    var lines := Pieces(text, '\n');
    forall i | 2 <= i < |lines|
      ensures forall name <- Pieces(lines[i], ';') :: '\n' !in name && ';' !in name
    {
      PiecesAreClean(lines[i], ';');
    }
  }

  /** A text with an ended first part has one piece more than the rest, at least. */
  lemma {:induction false} MorePieces(p: string, rest: string, c: char)
    ensures |Pieces(p + [c] + rest, c)| >= 1 + |Pieces(rest, c)|
    decreases |p|
  {
    var s := p + [c] + rest;
    var k := Find(s, c, 0);
    assert s[|p|] == c;
    if k < |p| {
      assert s[k + 1..] == p[k + 1..] + [c] + rest;
      MorePieces(p[k + 1..], rest, c);
    } else {
      assert s[k + 1..] == rest;
    }
  }

  lemma EncodedIsReadable(m: Manifest)
    ensures Readable(Encoded(m))
  {
    var lines := Lines(m.dataFiles);
    var parts := [m.pathToManifest, m.pathToLog] + lines;
    assert parts[1..] == [m.pathToLog] + lines;
    assert parts[1..][1..] == lines;
    MorePieces(m.pathToManifest, Ended(parts[1..], '\n'), '\n');
    MorePieces(m.pathToLog, Ended(lines, '\n'), '\n');
  }

  lemma UncleanIsLost(m: Manifest)
    requires Readable(Encoded(m)) && NoSeparators(m) && !Clean(m)
    ensures Decoded(Encoded(m)) != m
  {
    DecodeAfterEncode(m);
    var level :| level in m.dataFiles && level != [] && level[|level| - 1] == "";
    var i :| 0 <= i < |m.dataFiles| && m.dataFiles[i] == level;
    assert |Decoded(Encoded(m)).dataFiles[i]| < |m.dataFiles[i]|;
  }

  /** Decode after Encode gives the manifest back exactly when it is clean; both always succeed. */
  lemma ManifestRoundTrip(m: Manifest)
    ensures Readable(Encoded(m))
    ensures Decoded(Encoded(m)) == m <==> Clean(m)
  {
    EncodedIsReadable(m);
    if Clean(m) {
      DecodeAfterEncode(m);
      assert Decoded(Encoded(m)).dataFiles == m.dataFiles;
    } else if NoSeparators(m) {
      UncleanIsLost(m);
    } else {
      DecodedHasNoSeparators(Encoded(m));
    }
  }

  /** So no two clean manifests have the same text. */
  lemma EncodedInjective(m: Manifest, n: Manifest)
    requires Clean(m) && Clean(n) && Encoded(m) == Encoded(n)
    ensures m == n
  {
    ManifestRoundTrip(m);
    ManifestRoundTrip(n);
  }

  lemma EndedFirst(p: string, rest: seq<string>, c: char)
    ensures Ended([p] + rest, c) == p + [c] + Ended(rest, c)
  {
    assert ([p] + rest)[1..] == rest;
  }

  lemma EndedTwo(p: string, q: string, c: char)
    ensures Ended([p], c) == p + [c] && Ended([p, q], c) == p + [c] + q + [c]
  {
    EndedFirst(p, [], c);
    EndedFirst(q, [], c);
    EndedFirst(p, [q], c);
    assert [p] + [] == [p] && [q] + [] == [q] && [p] + [q] == [p, q];
  }

  /** The text of a small manifest. */
  lemma Sample()
    ensures Encoded(Manifest("m", "l", [["a", "b"], ["c"]])) == "m\nl\na;b\nc\n"
  {
    var m := Manifest("m", "l", [["a", "b"], ["c"]]);
    EndedTwo("a", "b", ';');
    EndedTwo("c", "", ';');
    assert Line(["a", "b"]) == "a;b" && Line(["c"]) == "c";
    assert Lines(m.dataFiles) == ["a;b", "c"];
    assert AllLines(m) == ["m"] + (["l"] + ["a;b", "c"]);
    EndedFirst("m", ["l"] + ["a;b", "c"], '\n');
    EndedFirst("l", ["a;b", "c"], '\n');
    EndedTwo("a;b", "c", '\n');
  }
}
