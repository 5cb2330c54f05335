/**
 * The deterministic parts of the Flask server in app.py: the parser that pulls the
 * "Scene Description:" and "Learning:" sections out of the model's streamed answer,
 * the yes/no command endpoint, the document loader's extension dispatch with its DOCX
 * paragraph filter, and the empty-input guard of the query endpoint. The model calls
 * themselves are parameters.
 */
module SceneServer {
  import opened Wrappers
  import opened Text

  const SceneMarker: string := "Scene Description:"
  const LearningMarker: string := "Learning:"

  // ---------------------------------------------------------------------------------
  // Scene description response (app.py:128-143)
  // ---------------------------------------------------------------------------------

  /** `text.split(marker)[1].split(stop)[0]`, stripped of `ws`: the text after the first
    * `marker`, cut at any later `marker` and at the first `stop`. */
  function CutBetween(text: string, marker: string, stop: string, ws: set<char>): (r: string)
    requires |marker| > 0 && |stop| > 0 && Contains(text, marker)
    ensures !Contains(r, marker) && !Contains(r, stop)
    ensures IsTrimmed(r, ws)
  {
    var pieces := Split(text, marker);
    var afterMarker := pieces[1];
    var beforeStop := Split(afterMarker, stop)[0];
    SplitHeadKeepsAbsence(afterMarker, stop, marker);
    TrimKeepsAbsence(beforeStop, marker, ws);
    TrimKeepsAbsence(beforeStop, stop, ws);
    Trim(beforeStop, ws)
  }

  /** `text.split(marker)[1]`, stripped of `ws`: the text between the first and any second `marker`. */
  function CutAfter(text: string, marker: string, ws: set<char>): (r: string)
    requires |marker| > 0 && Contains(text, marker)
    ensures !Contains(r, marker)
    ensures IsTrimmed(r, ws)
  {
    var pieces := Split(text, marker);
    var afterMarker := pieces[1];
    TrimKeepsAbsence(afterMarker, marker, ws);
    Trim(afterMarker, ws)
  }

  /** What one chunk containing "Scene Description:" contributes:
    * the text after the marker, up to "Learning:", stripped. */
  function ExtractScene(text: string): (r: string)
    requires Contains(text, SceneMarker)
    ensures !Contains(r, SceneMarker) && !Contains(r, LearningMarker)
    ensures IsTrimmed(r, PyWhitespace)
  {
    CutBetween(text, SceneMarker, LearningMarker, PyWhitespace)
  }

  /** What one chunk containing "Learning:" contributes: the text after the marker, stripped. */
  function ExtractLearning(text: string): (r: string)
    requires Contains(text, LearningMarker)
    ensures !Contains(r, LearningMarker)
    ensures IsTrimmed(r, PyWhitespace)
  {
    CutAfter(text, LearningMarker, PyWhitespace)
  }

  /** The value `CutBetween` computes, in terms of first occurrences. */
  lemma CutBetweenValue(text: string, marker: string, stop: string, ws: set<char>)
    requires |marker| > 0 && |stop| > 0 && Contains(text, marker)
    ensures var after := text[FindOr(text, marker) + |marker|..];
            var piece := after[..FindOr(after, marker)];
            CutBetween(text, marker, stop, ws) == Trim(piece[..FindOr(piece, stop)], ws)
  {
    SplitSecond(text, marker);
    var after := text[FindOr(text, marker) + |marker|..];
    SplitHead(after[..FindOr(after, marker)], stop);
  }

  /** The value `CutAfter` computes, in terms of first occurrences. */
  lemma CutAfterValue(text: string, marker: string, ws: set<char>)
    requires |marker| > 0 && Contains(text, marker)
    ensures var after := text[FindOr(text, marker) + |marker|..];
            CutAfter(text, marker, ws) == Trim(after[..FindOr(after, marker)], ws)
  {
    SplitSecond(text, marker);
  }

  /** `CutBetween` on `pre + marker + rest`, `marker` first occurring after `pre`: `rest` up
    * to the first index `k` where either marker begins, stripped. */
  lemma CutBetweenAt(pre: string, marker: string, stop: string, rest: string, ws: set<char>, k: nat)
    requires |marker| > 0 && |stop| > 0
    requires forall i :: 0 <= i < |stop| ==> stop[i] != marker[0]
    requires IndexOf(pre + marker + rest, marker) == Some(|pre|)
    requires k <= |rest|
    requires forall j :: 0 <= j < k ==> !OccursAt(rest, marker, j) && !OccursAt(rest, stop, j)
    requires k == |rest| || OccursAt(rest, marker, k) || OccursAt(rest, stop, k)
    ensures CutBetween(pre + marker + rest, marker, stop, ws) == Trim(rest[..k], ws)
  {
    AfterFirst(pre, marker, rest);
    CutBetweenValue(pre + marker + rest, marker, stop, ws);
    FirstOfTwo(rest, marker, stop, k);
  }

  /** `CutAfter` on `pre + marker + rest`, `marker` first occurring after `pre`: `rest` up
    * to the first index `k` where `marker` begins again, stripped. */
  lemma CutAfterAt(pre: string, marker: string, rest: string, ws: set<char>, k: nat)
    requires |marker| > 0
    requires IndexOf(pre + marker + rest, marker) == Some(|pre|)
    requires k <= |rest|
    requires forall j :: 0 <= j < k ==> !OccursAt(rest, marker, j)
    requires k == |rest| || OccursAt(rest, marker, k)
    ensures CutAfter(pre + marker + rest, marker, ws) == Trim(rest[..k], ws)
  {
    AfterFirst(pre, marker, rest);
    CutAfterValue(pre + marker + rest, marker, ws);
    FindOrUnique(rest, marker, k);
  }

  /**
   * The scene text of one chunk, `pre` + "Scene Description:" + `rest` with that
   * marker first occurring after `pre`: `rest` up to the first index `k` at which
   * either marker begins (or all of it), stripped.
   */
  lemma ExtractSceneValue(pre: string, rest: string, k: nat)
    requires IndexOf(pre + SceneMarker + rest, SceneMarker) == Some(|pre|)
    requires k <= |rest|
    requires forall j :: 0 <= j < k ==> !OccursAt(rest, SceneMarker, j) && !OccursAt(rest, LearningMarker, j)
    requires k == |rest| || OccursAt(rest, SceneMarker, k) || OccursAt(rest, LearningMarker, k)
    ensures ExtractScene(pre + SceneMarker + rest) == Trim(rest[..k], PyWhitespace)
  {
    assert forall i :: 0 <= i < |LearningMarker| ==> LearningMarker[i] != SceneMarker[0];
    CutBetweenAt(pre, SceneMarker, LearningMarker, rest, PyWhitespace, k);
  }

  /**
   * The learning text of one chunk, `pre` + "Learning:" + `rest` with that marker
   * first occurring after `pre`: `rest` up to the first index `k` at which
   * "Learning:" begins again (or all of it), stripped.
   */
  lemma ExtractLearningValue(pre: string, rest: string, k: nat)
    requires IndexOf(pre + LearningMarker + rest, LearningMarker) == Some(|pre|)
    requires k <= |rest|
    requires forall j :: 0 <= j < k ==> !OccursAt(rest, LearningMarker, j)
    requires k == |rest| || OccursAt(rest, LearningMarker, k)
    ensures ExtractLearning(pre + LearningMarker + rest) == Trim(rest[..k], PyWhitespace)
  {
    CutAfterAt(pre, LearningMarker, rest, PyWhitespace, k);
  }

  /** The scene description after all of `chunks`: the last chunk with the marker decides. */
  function SceneOf(chunks: seq<string>): (r: string)
    ensures !Contains(r, SceneMarker) && !Contains(r, LearningMarker)
    ensures IsTrimmed(r, PyWhitespace)
  {
    if chunks == [] then ""
    else if Contains(chunks[|chunks| - 1], SceneMarker) then ExtractScene(chunks[|chunks| - 1])
    else SceneOf(chunks[..|chunks| - 1])
  }

  /** The learning content after all of `chunks`: the last chunk with the marker decides. */
  function LearningOf(chunks: seq<string>): (r: string)
    ensures !Contains(r, LearningMarker)
    ensures IsTrimmed(r, PyWhitespace)
  {
    if chunks == [] then ""
    else if Contains(chunks[|chunks| - 1], LearningMarker) then ExtractLearning(chunks[|chunks| - 1])
    else LearningOf(chunks[..|chunks| - 1])
  }

  /** No chunk mentions the scene marker: the description stays "". */
  lemma {:induction false} SceneOfWithoutMarker(chunks: seq<string>)
    requires forall i :: 0 <= i < |chunks| ==> !Contains(chunks[i], SceneMarker)
    ensures SceneOf(chunks) == ""
  {
    if chunks != [] {
      SceneOfWithoutMarker(chunks[..|chunks| - 1]);
    }
  }

  /** No chunk mentions the learning marker: the learning content stays "". */
  lemma {:induction false} LearningOfWithoutMarker(chunks: seq<string>)
    requires forall i :: 0 <= i < |chunks| ==> !Contains(chunks[i], LearningMarker)
    ensures LearningOf(chunks) == ""
  {
    if chunks != [] {
      LearningOfWithoutMarker(chunks[..|chunks| - 1]);
    }
  }

  /** The last chunk that mentions the scene marker wins over every earlier one. */
  lemma {:induction false} SceneOfLastWins(chunks: seq<string>, k: nat)
    requires k < |chunks| && Contains(chunks[k], SceneMarker)
    requires forall j :: k < j < |chunks| ==> !Contains(chunks[j], SceneMarker)
    ensures SceneOf(chunks) == ExtractScene(chunks[k])
  {
    if k < |chunks| - 1 {
      SceneOfLastWins(chunks[..|chunks| - 1], k);
    }
  }

  /** The last chunk that mentions the learning marker wins over every earlier one. */
  lemma {:induction false} LearningOfLastWins(chunks: seq<string>, k: nat)
    requires k < |chunks| && Contains(chunks[k], LearningMarker)
    requires forall j :: k < j < |chunks| ==> !Contains(chunks[j], LearningMarker)
    ensures LearningOf(chunks) == ExtractLearning(chunks[k])
  {
    if k < |chunks| - 1 {
      LearningOfLastWins(chunks[..|chunks| - 1], k);
    }
  }

  /** The JSON body the scene-description endpoint returns. */
  datatype SceneReply = SceneReply(sceneDescription: string, hasLearning: bool, learning: string)

  /** The `for chunk in response` loop over the streamed chunk texts, and the reply built from it. */
  method ParseSceneResponse(chunks: seq<string>) returns (reply: SceneReply)
    ensures reply.sceneDescription == SceneOf(chunks)
    ensures reply.learning == LearningOf(chunks)
    ensures reply.hasLearning <==> reply.learning != ""
  {
    var sceneDescription := "";
    var learningContent := "";
    var i := 0;
    while i < |chunks|
      invariant 0 <= i <= |chunks|
      invariant sceneDescription == SceneOf(chunks[..i])
      invariant learningContent == LearningOf(chunks[..i])
    {
      var text := chunks[i];
      assert chunks[..i + 1][..i] == chunks[..i];
      if Contains(text, SceneMarker) {
        sceneDescription := ExtractScene(text);
      }
      if Contains(text, LearningMarker) {
        learningContent := ExtractLearning(text);
      }
      i := i + 1;
    }
    assert chunks[..i] == chunks;
    var hasLearning := learningContent != "";
    reply := SceneReply(sceneDescription, hasLearning, learningContent);
  }

  // ---------------------------------------------------------------------------------
  // Yes/no command endpoint (app.py:148-168)
  // ---------------------------------------------------------------------------------

  /** The HTTP status and JSON body of a `/api/command` reply. */
  datatype CommandReply = CommandReply(code: int, status: string, message: string, learning: Option<string>)

  /** `process_command`, given the request's "command" field (None when absent). */
  function ProcessCommand(command: Option<string>): (r: CommandReply)
    ensures var c := AsciiLower(command.GetOr(""));
            && (r.status == "success" <==> c == "yes" || c == "no")
            && (r.status == "error" <==> c != "yes" && c != "no")
            && (r.code == 200 <==> r.status == "success")
            && (r.code == 400 <==> r.status == "error")
            && (r.learning.Some? <==> c == "yes")
  {
    var c := AsciiLower(command.GetOr(""));
    if c == "yes" then
      CommandReply(200, "success", "You chose to learn more!",
                   Some("Please refer to the provided learning content."))
    else if c == "no" then
      CommandReply(200, "success", "Acknowledgment received. No further action.", None)
    else
      CommandReply(400, "error", "Invalid command.", None)
  }

  /** The command is compared case-insensitively: lowercasing it first changes nothing. */
  lemma ProcessCommandIgnoresCase(command: string)
    ensures ProcessCommand(Some(command)) == ProcessCommand(Some(AsciiLower(command)))
  {
    AsciiLowerIdempotent(command);
  }

  // ---------------------------------------------------------------------------------
  // Document loader (app.py:69-85)
  // ---------------------------------------------------------------------------------

  /** Index of the last `c` in `s`, or -1 (Python's `str.rfind`). */
  function RFind(s: string, c: char): (r: int)
    ensures -1 <= r < |s|
    ensures r >= 0 ==> s[r] == c
    ensures forall j :: r < j < |s| ==> s[j] != c
  {
    if s == [] then -1
    else if s[|s| - 1] == c then |s| - 1
    else RFind(s[..|s| - 1], c)
  }

  datatype PathParts = PathParts(root: string, ext: string)

  /** Where POSIX `os.path.splitext` starts the extension: at the last '.' of the final
    * path component, unless that component is only dots up to there (".docx" has none);
    * `|p|` when there is no extension. */
  function ExtStart(p: string): (k: int)
    ensures 0 <= k <= |p|
    ensures k < |p| ==> p[k] == '.' && forall i :: k < i < |p| ==> p[i] != '.' && p[i] != '/'
    ensures k < |p| ==> k == RFind(p, '.') && RFind(p, '/') < k
    ensures k < |p| <==> HasExtension(p)
  {
    var sepIndex := RFind(p, '/');
    var dotIndex := RFind(p, '.');
    HasExtensionAtLastDot(p);
    if dotIndex > sepIndex && exists i :: sepIndex + 1 <= i < dotIndex && p[i] != '.' then dotIndex
    else |p|
  }

  /** The extension test needs to look only at the last '.' of the path. */
  lemma HasExtensionAtLastDot(p: string)
    ensures var sepIndex, dotIndex := RFind(p, '/'), RFind(p, '.');
            HasExtension(p) <==> dotIndex > sepIndex && exists i :: sepIndex + 1 <= i < dotIndex && p[i] != '.'
  {
    var sepIndex, dotIndex := RFind(p, '/'), RFind(p, '.');
    if HasExtension(p) {
      var d :| sepIndex < d < |p| && p[d] == '.' && exists i :: sepIndex < i < d && p[i] != '.';
      var i :| sepIndex < i < d && p[i] != '.';
      assert d <= dotIndex;
    }
    if dotIndex > sepIndex && exists i :: sepIndex + 1 <= i < dotIndex && p[i] != '.' {
      var i :| sepIndex + 1 <= i < dotIndex && p[i] != '.';
      assert sepIndex < dotIndex < |p| && p[dotIndex] == '.' && sepIndex < i < dotIndex;
    }
  }

  /** The final path component has a '.' preceded, within that component, by a character
    * other than '.': leading dots alone (".docx", "..") make no extension. */
  predicate HasExtension(p: string) {
    var sepIndex := RFind(p, '/');
    exists d :: sepIndex < d < |p| && p[d] == '.' && exists i :: sepIndex < i < d && p[i] != '.'
  }

  /** POSIX `os.path.splitext`. */
  function Splitext(p: string): (r: PathParts)
    ensures r.root + r.ext == p
    ensures r.ext == [] || r.ext[0] == '.'
    ensures forall i :: 1 <= i < |r.ext| ==> r.ext[i] != '.' && r.ext[i] != '/'
    ensures r.ext != "" ==> |r.root| == RFind(p, '.')
  {
    var k := ExtStart(p);
    PathParts(p[..k], p[k..])
  }
  /** `splitext` finds an extension exactly when the last path component has a '.' after
    * some other character of that component. */
  lemma SplitextHasExtension(p: string)
    ensures Splitext(p).ext != "" <==> HasExtension(p)
  {
    assert Splitext(p).ext != "" <==> ExtStart(p) < |p|;
  }


  /** A file name with a stem that is not all dots, followed by an extension, splits
    * into exactly those two parts ("notes.docx" gives ".docx"). */
  lemma SplitextOfName(stem: string, ext: string)
    requires forall i :: 0 <= i < |stem| ==> stem[i] != '/'
    requires exists i :: 0 <= i < |stem| && stem[i] != '.'
    requires |ext| >= 1 && ext[0] == '.'
    requires forall i :: 1 <= i < |ext| ==> ext[i] != '.' && ext[i] != '/'
    ensures Splitext(stem + ext) == PathParts(stem, ext)
  {
    var p := stem + ext;
    forall j | 0 <= j < |p| ensures p[j] != '/' {
      if j < |stem| { assert p[j] == stem[j]; } else { assert p[j] == ext[j - |stem|]; }
    }
    var i :| 0 <= i < |stem| && stem[i] != '.';
    assert p[i] == stem[i] && p[|stem|] == '.';
    assert HasExtension(p);
    forall j | |stem| < j < |p| ensures p[j] != '.' { assert p[j] == ext[j - |stem|]; }
    assert RFind(p, '.') == |stem|;
    assert p[..|stem|] == stem && p[|stem|..] == ext;
  }

  /** A file name that is only leading dots and a suffix has no extension (".docx"). */
  lemma SplitextOfDotName(dots: string, tail: string)
    requires |dots| >= 1 && forall i :: 0 <= i < |dots| ==> dots[i] == '.'
    requires forall i :: 0 <= i < |tail| ==> tail[i] != '.' && tail[i] != '/'
    ensures Splitext(dots + tail).ext == ""
  {
    var p := dots + tail;
    forall d | |dots| <= d < |p| ensures p[d] != '.' { assert p[d] == tail[d - |dots|]; }
    assert forall i :: 0 <= i < |dots| ==> p[i] == '.' by {
      forall i | 0 <= i < |dots| ensures p[i] == '.' { assert p[i] == dots[i]; }
    }
  }

  /** A LangChain document: its text and its "source" metadata. */
  datatype Doc = Doc(pageContent: string, source: string)

  /** What `load_document` hands back: the PDF and text loaders are external, so the model
    * records which one receives the path; DOCX paragraphs are filtered here. */
  datatype Loaded =
    | PdfLoader(path: string)
    | TextLoader(path: string)
    | DocxDocuments(docs: seq<Doc>)
    | Unsupported(message: string)

  /** What one paragraph contributes: its stripped text, unless that is empty. */
  function KeptParagraph(paragraph: string, source: string): (r: seq<Doc>)
    ensures |r| <= 1
    ensures r != [] <==> !AllIn(paragraph, PyWhitespace)
    ensures r != [] ==> r[0] == Doc(Trim(paragraph, PyWhitespace), source)
  {
    var t := Trim(paragraph, PyWhitespace);
    if t != "" then [Doc(t, source)] else []
  }

  /** The DOCX list comprehension: paragraphs blank after `strip()` are dropped, the rest
    * are kept stripped and in order. */
  function DocxDocs(paragraphs: seq<string>, source: string): (r: seq<Doc>)
    ensures |r| <= |paragraphs|
    ensures forall i :: 0 <= i < |r| ==>
              r[i].pageContent != "" && IsTrimmed(r[i].pageContent, PyWhitespace) && r[i].source == source
  {
    if paragraphs == [] then []
    else KeptParagraph(paragraphs[0], source) + DocxDocs(paragraphs[1..], source)
  }

  function Contents(docs: seq<Doc>): (r: seq<string>)
    ensures |r| == |docs| && forall i :: 0 <= i < |docs| ==> r[i] == docs[i].pageContent
  {
    if docs == [] then [] else [docs[0].pageContent] + Contents(docs[1..])
  }

  lemma ConcatAssociates(x: seq<Doc>, y: seq<Doc>, z: seq<Doc>)
    ensures (x + y) + z == x + (y + z)
  {
  }

  /** The filter works paragraph by paragraph, so it distributes over concatenation
    * (the kept paragraphs stay in their original order). */
  lemma {:induction false} DocxDocsAppend(a: seq<string>, b: seq<string>, source: string)
    ensures DocxDocs(a + b, source) == DocxDocs(a, source) + DocxDocs(b, source)
  {
    if a != [] {
      assert (a + b)[0] == a[0];
      assert (a + b)[1..] == a[1..] + b;
      DocxDocsAppend(a[1..], b, source);
      var h := KeptParagraph(a[0], source);
      ConcatAssociates(h, DocxDocs(a[1..], source), DocxDocs(b, source));
      calc {
        DocxDocs(a + b, source);
        h + DocxDocs(a[1..] + b, source);
        h + (DocxDocs(a[1..], source) + DocxDocs(b, source));
        (h + DocxDocs(a[1..], source)) + DocxDocs(b, source);
      }
    } else {
      assert a + b == b;
    }
  }

  /** Paragraphs that are already non-blank and stripped are all kept, unchanged. */
  lemma {:induction false} DocxDocsKeepsCleanParagraphs(paragraphs: seq<string>, source: string)
    requires forall i :: 0 <= i < |paragraphs| ==>
               paragraphs[i] != "" && IsTrimmed(paragraphs[i], PyWhitespace)
    ensures Contents(DocxDocs(paragraphs, source)) == paragraphs
  {
    if paragraphs != [] {
      var p := paragraphs[0];
      CleanParagraphKept(p, source);
      DocxDocsKeepsCleanParagraphs(paragraphs[1..], source);
      assert DocxDocs(paragraphs, source) == [Doc(p, source)] + DocxDocs(paragraphs[1..], source);
    }
  }

  /** A non-empty stripped paragraph is kept as it is. */
  lemma CleanParagraphKept(p: string, source: string)
    requires p != "" && IsTrimmed(p, PyWhitespace)
    ensures KeptParagraph(p, source) == [Doc(p, source)]
  {
    assert LeadingCount(p, PyWhitespace) == 0 && TrailingCount(p, PyWhitespace) == 0;
    assert p[0..][..|p|] == p;
  }

  /** Filtering the filtered paragraphs again changes nothing. */
  lemma DocxDocsIdempotent(paragraphs: seq<string>, source: string)
    ensures var docs := DocxDocs(paragraphs, source);
            DocxDocs(Contents(docs), source) == docs
  {
    var docs := DocxDocs(paragraphs, source);
    var again := DocxDocs(Contents(docs), source);
    DocxDocsKeepsCleanParagraphs(Contents(docs), source);
    SameContentsSameDocs(again, docs, source);
  }

  /** Documents from one source are determined by their texts. */
  lemma SameContentsSameDocs(a: seq<Doc>, b: seq<Doc>, source: string)
    requires Contents(a) == Contents(b)
    requires forall i :: 0 <= i < |a| ==> a[i].source == source
    requires forall i :: 0 <= i < |b| ==> b[i].source == source
    ensures a == b
  {
    assert |a| == |Contents(a)| == |b|;
    forall i | 0 <= i < |a| ensures a[i] == b[i] {
      assert Contents(a)[i] == Contents(b)[i];
    }
  }

  /** `load_document(path)`; `paragraphs` are the texts of the DOCX file's paragraphs. */
  function LoadDocument(path: string, paragraphs: seq<string>): (r: Loaded)
    ensures var ext := AsciiLower(Splitext(path).ext);
            && (r.Unsupported? <==> ext != ".pdf" && ext != ".txt" && ext != ".docx")
            && (r.Unsupported? ==> r.message == "Unsupported file type.")
            && (r.PdfLoader? <==> ext == ".pdf")
            && (r.TextLoader? <==> ext == ".txt")
            && (r.DocxDocuments? <==> ext == ".docx")
            && (r.PdfLoader? ==> r.path == path)
            && (r.TextLoader? ==> r.path == path)
            && (r.DocxDocuments? ==> r.docs == DocxDocs(paragraphs, path))
  {
    var ext := AsciiLower(Splitext(path).ext);
    if ext == ".pdf" then PdfLoader(path)
    else if ext == ".txt" then TextLoader(path)
    else if ext == ".docx" then DocxDocuments(DocxDocs(paragraphs, path))
    else Unsupported("Unsupported file type.")
  }

  /** The extension is compared case-insensitively. */
  lemma LoadDocumentIgnoresCase(root: string, ext: string, paragraphs: seq<string>)
    requires Splitext(root + ext).ext == ext
    ensures LoadDocument(root + ext, paragraphs).Unsupported?
        <==> LoadDocument(root + AsciiLower(ext), paragraphs).Unsupported?
  {
    var p, q := root + ext, root + AsciiLower(ext);
    var e := Splitext(q).ext;
    SplitextOfLowered(root, ext);
    AsciiLowerIdempotent(ext);
  }

  /** Lowercasing a recognised extension keeps it recognised as the same extension. */
  lemma SplitextOfLowered(root: string, ext: string)
    requires Splitext(root + ext).ext == ext
    ensures Splitext(root + AsciiLower(ext)).ext == AsciiLower(ext)
  {
    var p, q := root + ext, root + AsciiLower(ext);
    var lowered := AsciiLower(ext);
    LoweredSameShape(root, ext);
    assert Splitext(p) == PathParts(p[..ExtStart(p)], p[ExtStart(p)..]);
    assert ExtStart(p) == |root|;
    SplitextSameShape(p, q);
    assert q[|root|..] == lowered;
  }

  /** Lowercasing the end of a path keeps every '.' and '/' where it was. */
  lemma LoweredSameShape(root: string, ext: string)
    ensures var p, q := root + ext, root + AsciiLower(ext);
            && |p| == |q|
            && forall i :: 0 <= i < |q| ==> (q[i] == '.' <==> p[i] == '.') && (q[i] == '/' <==> p[i] == '/')
  {
    var p, q := root + ext, root + AsciiLower(ext);
    var lowered := AsciiLower(ext);
    forall i | 0 <= i < |q| ensures (q[i] == '.' <==> p[i] == '.') && (q[i] == '/' <==> p[i] == '/') {
      if i >= |root| { assert q[i] == lowered[i - |root|]; assert p[i] == ext[i - |root|]; }
    }
  }

  /** Where `splitext` cuts depends only on where the '.' and '/' characters are. */
  lemma SplitextSameShape(p: string, q: string)
    requires |p| == |q|
    requires forall i :: 0 <= i < |q| ==> (q[i] == '.' <==> p[i] == '.') && (q[i] == '/' <==> p[i] == '/')
    ensures ExtStart(p) == ExtStart(q)
  {
    RFindSameShape(p, q, '/');
    RFindSameShape(p, q, '.');
    var sepIndex, dotIndex := RFind(p, '/'), RFind(p, '.');
    if exists i :: sepIndex + 1 <= i < dotIndex && p[i] != '.' {
      var i :| sepIndex + 1 <= i < dotIndex && p[i] != '.';
      assert q[i] != '.';
    }
    if exists i :: sepIndex + 1 <= i < dotIndex && q[i] != '.' {
      var i :| sepIndex + 1 <= i < dotIndex && q[i] != '.';
      assert p[i] != '.';
    }
  }

  /** Two strings with '.'/'/' in the same places give the same `rfind` answers. */
  lemma {:induction false} RFindSameShape(p: string, q: string, c: char)
    requires |p| == |q|
    requires forall i :: 0 <= i < |q| ==> (q[i] == c <==> p[i] == c)
    ensures RFind(p, c) == RFind(q, c)
  {
    if p != [] {
      RFindSameShape(p[..|p| - 1], q[..|q| - 1], c);
    }
  }

  // ---------------------------------------------------------------------------------
  // Query endpoint (app.py:189-203)
  // ---------------------------------------------------------------------------------

  const QueryPrompt: string := "Answer this query concisely:\n"

  /** The HTTP status and JSON body of a reply: "status" plus a response or message text. */
  datatype Reply = Reply(code: int, status: string, text: string)

  /** What `handle_query` does with the request's "query" field before any model call. */
  datatype QueryDecision = QueryRejected(reply: Reply) | AskModel(prompt: string)

  function HandleQuery(query: Option<string>): (r: QueryDecision)
    ensures r.QueryRejected? <==> query.None? || query.value == ""
    ensures r.QueryRejected? ==> r.reply == Reply(400, "error", "No query provided")
    ensures r.AskModel? ==> r.prompt == QueryPrompt + query.value
  {
    var userQuery := query.GetOr("");
    if userQuery == "" then QueryRejected(Reply(400, "error", "No query provided"))
    else AskModel(QueryPrompt + userQuery)
  }

  function ConcatAll(parts: seq<string>): string {
    if parts == [] then "" else parts[0] + ConcatAll(parts[1..])
  }

  /** Joining chunk by chunk: the text of two runs of chunks is the two texts in order. */
  lemma {:induction false} ConcatAllAppend(a: seq<string>, b: seq<string>)
    ensures ConcatAll(a + b) == ConcatAll(a) + ConcatAll(b)
  {
    if a == [] {
      assert a + b == b;
    } else {
      assert (a + b)[1..] == a[1..] + b;
      ConcatAllAppend(a[1..], b);
    }
  }

  /** What the model call gave: the chunk texts, or the message of the exception it raised. */
  datatype ModelOutcome = Generated(chunks: seq<string>) | Raised(error: string)

  /** The reply once the model has answered. When the call raised, the reply carries the
    * exception's message and no explicit status, so Flask sends 200. */
  function QueryReply(decision: QueryDecision, outcome: ModelOutcome): (r: Reply)
    ensures decision.QueryRejected? ==> r == decision.reply
    ensures decision.AskModel? ==> r.code == 200
    ensures decision.AskModel? ==> (r.status == "success" <==> outcome.Generated?)
    ensures decision.AskModel? && outcome.Generated? ==> r.text == ConcatAll(outcome.chunks)
    ensures decision.AskModel? && outcome.Raised? ==> r.status == "error" && r.text == outcome.error
  {
    match decision
    case QueryRejected(reply) => reply
    case AskModel(_) =>
      match outcome
      case Generated(chunks) => Reply(200, "success", ConcatAll(chunks))
      case Raised(error) => Reply(200, "error", error)
  }
}
