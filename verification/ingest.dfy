/**
 The ingestion function triggered by an uploaded CSV file
 (content-generator-function/main.py, `process_csv_and_generate_content`).

 The generative models, the storage client, the warehouse client and the clock
 are not called: their answers are supplied as oracle values (`Services`,
 `RowReplies`, `Fetch`), and every request the function would make is recorded,
 in order, as a `Call` in the trace it returns. "No image request", "no insert"
 and "no move" are therefore statements about that trace.
 */
module Ingest {
  import opened Optional
  import opened Strings

  type Bytes = seq<bv8>

  // Marker strings written in place of generated content or an image URL.
  const TextFailedMarker := "Error: Text generation failed."
  const NoImageMarker := "Error: No image returned."
  const ImageFailedMarker := "Error: Image generation failed."
  const SkippedMarker := "Skipped: Text generation failed."
  /** The substring whose presence in the generated text suppresses the image step. */
  const ErrorTag := "Error:"
  /** How many characters of the generated text go into the image prompt. */
  const ImagePromptTextLength := 100

  /** The environment variables the function reads. */
  datatype Config = Config(
    projectId: Option<string>,
    region: Option<string>,
    dataset: Option<string>,
    table: Option<string>,
    failedBucket: Option<string>,
    imagesBucket: Option<string>,
    apiKey: Option<string>)

  /** The object-finalize notification: the bucket and name of the uploaded file. */
  datatype Event = Event(bucket: string, name: string)

  /** The two fields a data row contributes, already trimmed. */
  datatype Product = Product(name: string, keywords: string)

  /** One row of the warehouse table, as the function assembles it. */
  datatype Record = Record(
    productName: string,
    keywords: string,
    generatedContent: string,
    generatedImageUrl: string,
    sourceFile: string,
    processedAt: string)

  /** The text model's answer: a response whose `text` is read, or an exception. */
  datatype TextReply = TextOk(text: string) | TextFails

  /** One content part of an image response; `None` when reading its inline data raises. */
  datatype Part = Part(inlineData: Option<Bytes>)

  /** The image model's answer: a response with a `parts` list, one without it, or an exception. */
  datatype ImageReply = ImageOk(parts: seq<Part>) | ImageNoParts | ImageFails

  /** The upload's result: the blob's public URL, or an exception. */
  datatype UploadReply = Uploaded(publicUrl: string) | UploadFails

  /** Everything the outside world answers while one row is enriched, clock readings included. */
  datatype RowReplies = RowReplies(
    text: TextReply,
    image: ImageReply,
    upload: UploadReply,
    unixSeconds: nat,
    processedAt: string)

  /**
   The services' answers for one invocation: `rowReplies(k)` answers the k-th row
   that reaches generation (0-based), and `copySucceeds` says whether copying the
   file to the failed bucket goes through.
   */
  datatype Services = Services(rowReplies: nat -> RowReplies, copySucceeds: bool)

  /** What the CSV reader yields: these lines, then an exception when `raises` holds, else the end. */
  datatype CsvRead = CsvRead(lines: seq<seq<string>>, raises: bool)

  /** The result of downloading the file as text and handing it to the reader. */
  datatype Fetch = FetchFails | Fetched(csv: CsvRead)

  /** A request made to an outside service. */
  datatype Call =
    | DownloadText(bucket: string, name: string)
    | GenerateText(prompt: string)
    | GenerateImage(prompt: string)
    | UploadImage(imagesBucket: Option<string>, blobName: string, data: Bytes)
    | CopyBlob(fromBucket: string, name: string, toBucket: string)
    | DeleteBlob(bucket: string, name: string)
    | InsertRows(tableId: string, rows: seq<Record>)

  /** A request the row loop may make: one to a generative model or an image upload. */
  predicate RowRequest(c: Call) {
    c.GenerateText? || c.GenerateImage? || c.UploadImage?
  }

  predicate MakesImageRequest(calls: seq<Call>) {
    exists i :: 0 <= i < |calls| && calls[i].GenerateImage?
  }

  predicate MakesUpload(calls: seq<Call>) {
    exists i :: 0 <= i < |calls| && calls[i].UploadImage?
  }

  predicate MakesInsert(calls: seq<Call>) {
    exists i :: 0 <= i < |calls| && calls[i].InsertRows?
  }

  predicate MovesFile(calls: seq<Call>) {
    exists i :: 0 <= i < |calls| && (calls[i].CopyBlob? || calls[i].DeleteBlob?)
  }

  // ---------------------------------------------------------------------------
  // Row filter

  /** A data line reaches generation: at least two fields, and not both of the first two blank. */
  predicate Qualifies(line: seq<string>) {
    |line| >= 2 && !(Trim(line[0]) == "" && Trim(line[1]) == "")
  }

  function ProductOf(line: seq<string>): Product
    requires |line| >= 2
  {
    Product(Trim(line[0]), Trim(line[1]))
  }

  /** The products of the qualifying lines, in input order. */
  function KeptRows(lines: seq<seq<string>>): (ps: seq<Product>)
    ensures |ps| <= |lines|
  {
    if lines == [] then []
    else if Qualifies(lines[0]) then [ProductOf(lines[0])] + KeptRows(lines[1..])
    else KeptRows(lines[1..])
  }

  /** Filtering a concatenation filters each part. */
  lemma {:induction false} KeptRowsAppend(a: seq<seq<string>>, b: seq<seq<string>>)
    ensures KeptRows(a + b) == KeptRows(a) + KeptRows(b)
    decreases |a|
  {
    if a == [] {
      assert a + b == b;
    } else {
      assert (a + b)[0] == a[0];
      assert (a + b)[1..] == a[1..] + b;
      KeptRowsAppend(a[1..], b);
    }
  }

  /** A line that does not qualify (too few fields, or both fields blank) yields no product. */
  lemma NonQualifyingLineDropped(a: seq<seq<string>>, line: seq<string>, b: seq<seq<string>>)
    requires !Qualifies(line)
    ensures KeptRows(a + [line] + b) == KeptRows(a) + KeptRows(b)
  {
    KeptRowsAppend(a + [line], b);
    KeptRowsAppend(a, [line]);
    assert KeptRows([line]) == [] by {
      assert [line][1..] == [];
    }
    assert KeptRows(a) + [] == KeptRows(a);
  }

  /** A qualifying line yields exactly one product, its trimmed first two fields, in place. */
  lemma QualifyingLineKept(a: seq<seq<string>>, line: seq<string>, b: seq<seq<string>>)
    requires Qualifies(line)
    ensures KeptRows(a + [line] + b) == KeptRows(a) + [Product(Trim(line[0]), Trim(line[1]))] + KeptRows(b)
  {
    KeptRowsAppend(a + [line], b);
    KeptRowsAppend(a, [line]);
    KeptSingle(line);
  }

  /** A qualifying line on its own yields its product. */
  lemma KeptSingle(line: seq<string>)
    requires Qualifies(line)
    ensures KeptRows([line]) == [ProductOf(line)]
  {
    assert [line][1..] == [];
  }

  /** Two lines that agree on their field count being at least two and on their first two fields. */
  predicate SameKeyFields(l1: seq<string>, l2: seq<string>) {
    (|l1| >= 2 <==> |l2| >= 2) && (|l1| >= 2 ==> l1[0] == l2[0] && l1[1] == l2[1])
  }

  // ---------------------------------------------------------------------------
  // Row enrichment

  const TextPromptOpening := "Write a short, exciting marketing description for a product named '"
  const TextPromptMiddle := "' that is '"
  const TextPromptClosing := "'. The description should be one paragraph."
  const ImagePromptOpening := "A professional, high-resolution marketing photo, studio lighting, of: "

  function TextPrompt(p: Product): string {
    TextPromptOpening + p.name + TextPromptMiddle + p.keywords + TextPromptClosing
  }

  function ImagePrompt(name: string, text: string): string {
    ImagePromptOpening + name + ", " + text[..Min(ImagePromptTextLength, |text|)]
  }

  /** The value stored as generated content: the stripped response text, or the failure marker. */
  function GeneratedText(reply: TextReply): string {
    match reply
    case TextOk(t) => Trim(t)
    case TextFails => TextFailedMarker
  }

  /** The guard in front of the image step: non-empty text without the error tag. */
  predicate ImageAttempted(text: string) {
    text != "" && !Contains(text, ErrorTag)
  }

  /** The image object's name: product name with spaces as `_`, lower-cased, then `_<seconds>.png`. */
  function BlobName(productName: string, unixSeconds: nat): string {
    LowerAscii(ReplaceChar(productName, ' ', '_')) + "_" + NatToString(unixSeconds) + ".png"
  }

  datatype ImageStep = ImageStep(url: string, calls: seq<Call>)

  /** The image reply's first part carries bytes, so an upload is attempted. */
  predicate HasImageBytes(reply: ImageReply) {
    reply.ImageOk? && |reply.parts| > 0 && reply.parts[0].inlineData.Some?
  }

  /**
   The image step, run only when the guard holds: one image request, then an upload of
   the first part's bytes, under the derived blob name, exactly when it carries some.
   ImageStepUrl states the URL field it yields.
   */
  function ImageStepOf(name: string, text: string, replies: RowReplies, imagesBucket: Option<string>): (s: ImageStep)
    ensures 1 <= |s.calls| <= 2 && s.calls[0] == GenerateImage(ImagePrompt(name, text))
    ensures |s.calls| == 2 <==> HasImageBytes(replies.image)
    ensures HasImageBytes(replies.image) ==>
      s.calls[1] == UploadImage(imagesBucket, BlobName(name, replies.unixSeconds), replies.image.parts[0].inlineData.value)
  {
    var request := GenerateImage(ImagePrompt(name, text));
    match replies.image
    case ImageFails => ImageStep(ImageFailedMarker, [request])
    case ImageNoParts => ImageStep(NoImageMarker, [request])
    case ImageOk(parts) =>
      if |parts| == 0 then ImageStep(NoImageMarker, [request])
      else
        match parts[0].inlineData
        case None => ImageStep(ImageFailedMarker, [request])
        case Some(data) =>
          var upload := UploadImage(imagesBucket, BlobName(name, replies.unixSeconds), data);
          match replies.upload
          case Uploaded(url) => ImageStep(url, [request, upload])
          case UploadFails => ImageStep(ImageFailedMarker, [request, upload])
  }

  /**
   The URL field the image step yields: the public URL after a successful upload,
   "Error: No image returned." for an absent or empty parts list, and "Error: Image
   generation failed." for any exception, a failed upload included.
   */
  lemma ImageStepUrl(name: string, text: string, replies: RowReplies, imagesBucket: Option<string>)
    ensures var s := ImageStepOf(name, text, replies, imagesBucket);
      && (replies.image.ImageNoParts? || (replies.image.ImageOk? && replies.image.parts == []) ==> s.url == NoImageMarker)
      && (HasImageBytes(replies.image) && replies.upload.Uploaded? ==> s.url == replies.upload.publicUrl)
      && (!HasImageBytes(replies.image) ==> s.url == NoImageMarker || s.url == ImageFailedMarker)
      && (replies.image.ImageFails? ==> s.url == ImageFailedMarker)
      && (replies.image.ImageOk? && replies.image.parts != [] && !(HasImageBytes(replies.image) && replies.upload.Uploaded?) ==>
            s.url == ImageFailedMarker)
  {
  }

  datatype RowStep = RowStep(record: Record, calls: seq<Call>)

  /**
   The guard `text and "Error:" not in text` applied to the stored text. A failed text
   request stores TextFailedMarker, which contains the tag, so only a successful
   request can open it (GuardIsSourceGuard).
   */
  predicate GuardOpens(reply: TextReply) {
    match reply
    case TextOk(t) => ImageAttempted(Trim(t))
    case TextFails => false
  }

  /** Enriches one qualifying row; never fails, whatever the services answer. */
  function EnrichRow(p: Product, replies: RowReplies, source: string, imagesBucket: Option<string>): (r: RowStep)
    ensures r.record.productName == p.name && r.record.keywords == p.keywords
    ensures r.record.sourceFile == source && r.record.processedAt == replies.processedAt
    ensures |r.calls| >= 1 && r.calls[0] == GenerateText(TextPrompt(p))
    ensures forall i :: 1 <= i < |r.calls| ==> !r.calls[i].GenerateText?
    ensures forall i :: 0 <= i < |r.calls| ==> RowRequest(r.calls[i])
    ensures r.record.generatedContent == GeneratedText(replies.text)
    ensures !GuardOpens(replies.text) ==> r.calls == [GenerateText(TextPrompt(p))] && r.record.generatedImageUrl == SkippedMarker
  {
    var text := GeneratedText(replies.text);
    var textCall := GenerateText(TextPrompt(p));
    if GuardOpens(replies.text) then
      var image := ImageStepOf(p.name, text, replies, imagesBucket);
      RowStep(Record(p.name, p.keywords, text, image.url, source, replies.processedAt), [textCall] + image.calls)
    else
      RowStep(Record(p.name, p.keywords, text, SkippedMarker, source, replies.processedAt), [textCall])
  }

  /** The failure marker itself contains the error tag, so it never passes the guard. */
  lemma TextFailedMarkerBlocksImage()
    ensures !ImageAttempted(TextFailedMarker)
  {
    assert StartsWith(TextFailedMarker, ErrorTag);
  }

  /** The model's guard is the source's guard on the stored text. */
  lemma GuardIsSourceGuard(reply: TextReply)
    ensures GuardOpens(reply) <==> ImageAttempted(GeneratedText(reply))
  {
    if reply.TextFails? {
      TextFailedMarkerBlocksImage();
    }
  }

  /** A failed text request yields both failure markers and no image request. */
  lemma TextFailureSkipsImage(p: Product, replies: RowReplies, source: string, imagesBucket: Option<string>)
    requires replies.text.TextFails?
    ensures EnrichRow(p, replies, source, imagesBucket).record.generatedContent == TextFailedMarker
    ensures EnrichRow(p, replies, source, imagesBucket).record.generatedImageUrl == SkippedMarker
    ensures !MakesImageRequest(EnrichRow(p, replies, source, imagesBucket).calls)
  {
    TextFailedMarkerBlocksImage();
  }

  /**
   The image model is asked exactly when the stored text is non-empty and does not
   contain "Error:"; otherwise the URL field holds the skip marker.
   */
  lemma ImageRequestIff(p: Product, replies: RowReplies, source: string, imagesBucket: Option<string>)
    ensures var r := EnrichRow(p, replies, source, imagesBucket);
      && r.record.generatedContent == GeneratedText(replies.text)
      && (MakesImageRequest(r.calls) <==> ImageAttempted(GeneratedText(replies.text)))
      && (!ImageAttempted(GeneratedText(replies.text)) ==> r.record.generatedImageUrl == SkippedMarker)
  {
    GuardIsSourceGuard(replies.text);
    var r := EnrichRow(p, replies, source, imagesBucket);
    if GuardOpens(replies.text) {
      assert r.calls[1].GenerateImage?;
    }
  }

  /** A blank (all-whitespace) response is stored as "" and skips the image step. */
  lemma BlankTextSkipsImage(p: Product, replies: RowReplies, source: string, imagesBucket: Option<string>)
    requires replies.text.TextOk? && forall i :: 0 <= i < |replies.text.text| ==> IsSpace(replies.text.text[i])
    ensures EnrichRow(p, replies, source, imagesBucket).record.generatedContent == ""
    ensures EnrichRow(p, replies, source, imagesBucket).record.generatedImageUrl == SkippedMarker
    ensures !MakesImageRequest(EnrichRow(p, replies, source, imagesBucket).calls)
  {
  }

  /** When the guard holds, the row's URL and its requests after the text request are the image step's. */
  lemma GuardOpenRunsImageStep(p: Product, replies: RowReplies, source: string, imagesBucket: Option<string>)
    ensures ImageAttempted(GeneratedText(replies.text)) ==>
      var r := EnrichRow(p, replies, source, imagesBucket);
      var s := ImageStepOf(p.name, GeneratedText(replies.text), replies, imagesBucket);
      r.record.generatedImageUrl == s.url && r.calls == [GenerateText(TextPrompt(p))] + s.calls
      && (MakesUpload(r.calls) <==> HasImageBytes(replies.image))
  {
    GuardIsSourceGuard(replies.text);
    if !GuardOpens(replies.text) {
      return;
    }
    var r := EnrichRow(p, replies, source, imagesBucket);
    var s := ImageStepOf(p.name, GeneratedText(replies.text), replies, imagesBucket);
    assert r.calls == [GenerateText(TextPrompt(p))] + s.calls;
    if HasImageBytes(replies.image) {
      assert r.calls[2].UploadImage?;
    } else {
      assert forall i :: 0 <= i < |r.calls| ==> !r.calls[i].UploadImage?;
    }
  }

  /**
   The image object's name starts with the product name, spaces turned into `_` and
   lower-cased, followed by `_`, the decimal seconds, and `.png`; it has no spaces and
   no upper-case ASCII letters, and the seconds can be read back from it.
   */
  lemma BlobNameShape(productName: string, unixSeconds: nat)
    ensures var b := BlobName(productName, unixSeconds);
      var digits := NatToString(unixSeconds);
      && |b| == |productName| + |digits| + 5
      && b[..|productName|] == LowerAscii(ReplaceChar(productName, ' ', '_'))
      && b[|productName|] == '_'
      && b[|productName| + 1..|b| - 4] == digits
      && DecimalValue(b[|productName| + 1..|b| - 4]) == unixSeconds
      && b[|b| - 4..] == ".png"
      && forall i :: 0 <= i < |b| ==> b[i] != ' ' && !IsUpper(b[i])
  {
    var b := BlobName(productName, unixSeconds);
    var digits := NatToString(unixSeconds);
    var stem := LowerAscii(ReplaceChar(productName, ' ', '_'));
    assert b == stem + "_" + digits + ".png";
    assert b[|productName| + 1..|b| - 4] == digits;
    DecimalRoundTrip(unixSeconds);
    StemHasNoSpaceOrUpper(productName);
    forall i | 0 <= i < |b| ensures b[i] != ' ' && !IsUpper(b[i]) {
      if i < |stem| {
        assert b[i] == stem[i];
      } else if i == |stem| {
      } else if i < |stem| + 1 + |digits| {
        assert b[i] == digits[i - |stem| - 1];
      } else {
        assert b[i] == ".png"[i - |stem| - 1 - |digits|];
      }
    }
  }

  /** The name part of an object name holds neither spaces nor upper-case ASCII letters. */
  lemma StemHasNoSpaceOrUpper(productName: string)
    ensures var stem := LowerAscii(ReplaceChar(productName, ' ', '_'));
      forall i :: 0 <= i < |stem| ==> stem[i] != ' ' && !IsUpper(stem[i])
  {
    var under := ReplaceChar(productName, ' ', '_');
    var stem := LowerAscii(under);
    forall i | 0 <= i < |stem| ensures stem[i] != ' ' {
      assert under[i] != ' ';
    }
  }

  // ---------------------------------------------------------------------------
  // The row loop

  datatype Batch = Batch(records: seq<Record>, calls: seq<Call>)

  /**
   The loop over the data lines: `kept` rows have reached generation before these
   lines, so the next one is answered by `rowReplies(kept)`.
   */
  function ProcessLines(lines: seq<seq<string>>, kept: nat, env: Services, source: string, imagesBucket: Option<string>): (b: Batch)
    ensures |b.records| == |KeptRows(lines)|
    ensures forall i :: 0 <= i < |b.calls| ==> RowRequest(b.calls[i])
    decreases |lines|
  {
    if lines == [] then Batch([], [])
    else if Qualifies(lines[0]) then
      var step := EnrichRow(ProductOf(lines[0]), env.rowReplies(kept), source, imagesBucket);
      var rest := ProcessLines(lines[1..], kept + 1, env, source, imagesBucket);
      Batch([step.record] + rest.records, step.calls + rest.calls)
    else ProcessLines(lines[1..], kept, env, source, imagesBucket)
  }

  /** The row loop asks the generative models and the image bucket only: no move, no insert. */
  lemma RowLoopNeitherMovesNorInserts(lines: seq<seq<string>>, kept: nat, env: Services, source: string, imagesBucket: Option<string>)
    ensures var b := ProcessLines(lines, kept, env, source, imagesBucket);
      !MakesInsert(b.calls) && !MovesFile(b.calls)
  {
    var b := ProcessLines(lines, kept, env, source, imagesBucket);
    assert forall i :: 0 <= i < |b.calls| ==> RowRequest(b.calls[i]);
  }

  /** `[f(xs[0], start), f(xs[1], start + 1), ...]`: a map that also passes each element's ordinal. */
  function MapNumbered<T, U>(xs: seq<T>, start: nat, f: (T, nat) -> U): (ys: seq<U>)
    ensures |ys| == |xs|
  {
    if xs == [] then [] else [f(xs[0], start)] + MapNumbered(xs[1..], start + 1, f)
  }

  lemma {:induction false} MapNumberedAt<T, U>(xs: seq<T>, start: nat, f: (T, nat) -> U, j: nat)
    requires j < |xs|
    ensures MapNumbered(xs, start, f)[j] == f(xs[j], start + j)
    decreases |xs|
  {
    if j > 0 {
      MapNumberedAt(xs[1..], start + 1, f, j - 1);
      assert xs[1..][j - 1] == xs[j];
      assert (start + 1) + (j - 1) == start + j;
    }
  }

  /** The record a product gets when it is the k-th row to reach generation. */
  function RecordMaker(env: Services, source: string, imagesBucket: Option<string>): (Product, nat) -> Record {
    (p: Product, k: nat) => EnrichRow(p, env.rowReplies(k), source, imagesBucket).record
  }

  /** The row loop's records are the qualifying lines' products, enriched in input order. */
  lemma {:induction false} RecordsFollowKeptRows(lines: seq<seq<string>>, kept: nat, env: Services, source: string, imagesBucket: Option<string>)
    ensures ProcessLines(lines, kept, env, source, imagesBucket).records
         == MapNumbered(KeptRows(lines), kept, RecordMaker(env, source, imagesBucket))
    decreases |lines|
  {
    if lines != [] {
      if Qualifies(lines[0]) {
        RecordsFollowKeptRows(lines[1..], kept + 1, env, source, imagesBucket);
        var ps := KeptRows(lines);
        assert ps[0] == ProductOf(lines[0]) && ps[1..] == KeptRows(lines[1..]);
      } else {
        RecordsFollowKeptRows(lines[1..], kept, env, source, imagesBucket);
      }
    }
  }

  /**
   One record per qualifying line, in input order: record j is the j-th qualifying
   line's product enriched with the replies for the (kept + j)-th generation.
   */
  lemma RecordFollowsKeptRow(lines: seq<seq<string>>, kept: nat, env: Services, source: string, imagesBucket: Option<string>, j: nat)
    requires j < |KeptRows(lines)|
    ensures var b := ProcessLines(lines, kept, env, source, imagesBucket);
      |b.records| == |KeptRows(lines)| &&
      b.records[j] == EnrichRow(KeptRows(lines)[j], env.rowReplies(kept + j), source, imagesBucket).record
  {
    RecordsFollowKeptRows(lines, kept, env, source, imagesBucket);
    MapNumberedAt(KeptRows(lines), kept, RecordMaker(env, source, imagesBucket), j);
  }

  /** The number of text requests in a trace. */
  function TextRequests(calls: seq<Call>): nat {
    if calls == [] then 0
    else (if calls[0].GenerateText? then 1 else 0) + TextRequests(calls[1..])
  }

  lemma {:induction false} TextRequestsAppend(a: seq<Call>, b: seq<Call>)
    ensures TextRequests(a + b) == TextRequests(a) + TextRequests(b)
    decreases |a|
  {
    if a == [] {
      assert a + b == b;
    } else {
      assert (a + b)[0] == a[0];
      assert (a + b)[1..] == a[1..] + b;
      TextRequestsAppend(a[1..], b);
    }
  }

  /** Each qualifying row sends exactly one text request, and the loop sends no others. */
  lemma {:induction false} OneTextRequestPerRecord(lines: seq<seq<string>>, kept: nat, env: Services, source: string, imagesBucket: Option<string>)
    ensures var b := ProcessLines(lines, kept, env, source, imagesBucket);
      TextRequests(b.calls) == |b.records|
    decreases |lines|
  {
    if lines != [] {
      var next := if Qualifies(lines[0]) then kept + 1 else kept;
      OneTextRequestPerRecord(lines[1..], next, env, source, imagesBucket);
      if Qualifies(lines[0]) {
        var step := EnrichRow(ProductOf(lines[0]), env.rowReplies(kept), source, imagesBucket);
        var rest := ProcessLines(lines[1..], next, env, source, imagesBucket);
        TextRequestsAppend(step.calls, rest.calls);
        OneTextRequestPerRow(step.calls);
      }
    }
  }

  /** A row's trace, one text request followed by none, counts one. */
  lemma OneTextRequestPerRow(calls: seq<Call>)
    requires |calls| >= 1 && calls[0].GenerateText?
    requires forall i :: 1 <= i < |calls| ==> !calls[i].GenerateText?
    ensures TextRequests(calls) == 1
  {
    NoTextRequests(calls[1..]);
  }

  lemma {:induction false} NoTextRequests(calls: seq<Call>)
    requires forall i :: 0 <= i < |calls| ==> !calls[i].GenerateText?
    ensures TextRequests(calls) == 0
    decreases |calls|
  {
    if calls != [] {
      NoTextRequests(calls[1..]);
    }
  }

  /** Columns past the second never change the records or the requests. */
  lemma {:induction false} ExtraColumnsIgnored(l1: seq<seq<string>>, l2: seq<seq<string>>, kept: nat, env: Services, source: string, imagesBucket: Option<string>)
    requires |l1| == |l2|
    requires forall i :: 0 <= i < |l1| ==> SameKeyFields(l1[i], l2[i])
    ensures ProcessLines(l1, kept, env, source, imagesBucket) == ProcessLines(l2, kept, env, source, imagesBucket)
    decreases |l1|
  {
    if l1 != [] {
      assert SameKeyFields(l1[0], l2[0]);
      assert Qualifies(l1[0]) == Qualifies(l2[0]);
      var next := if Qualifies(l1[0]) then kept + 1 else kept;
      ExtraColumnsIgnored(l1[1..], l2[1..], next, env, source, imagesBucket);
    }
  }

  // ---------------------------------------------------------------------------
  // The file-level outcome

  /** How the invocation ends. */
  datatype Outcome =
    | NotConfigured                          // the API key is missing: nothing is done
    | Quarantined(discarded: seq<Record>)    // the file failed: records dropped, moved only when a failed bucket is configured
    | NothingToInsert                        // the file was read but no row qualified
    | Inserted(records: seq<Record>)         // the records were handed to the warehouse

  datatype Run = Run(outcome: Outcome, calls: seq<Call>)

  function SourceLocator(ev: Event): string {
    "gs://" + ev.bucket + "/" + ev.name
  }

  function TableId(cfg: Config): string {
    Show(cfg.projectId) + "." + Show(cfg.dataset) + "." + Show(cfg.table)
  }

  /** Moving the failed file: copy to the failed bucket under the same name, then delete the original. */
  function MoveToFailed(cfg: Config, ev: Event, copySucceeds: bool): (calls: seq<Call>)
    ensures !Present(cfg.failedBucket) <==> calls == []
    ensures calls != [] ==> calls[0] == CopyBlob(ev.bucket, ev.name, cfg.failedBucket.value)
    ensures |calls| == 2 <==> Present(cfg.failedBucket) && copySucceeds
    ensures |calls| == 2 ==> calls[1] == DeleteBlob(ev.bucket, ev.name)
    ensures !MakesInsert(calls)
  {
    if !Present(cfg.failedBucket) then []
    else
      var copy := CopyBlob(ev.bucket, ev.name, cfg.failedBucket.value);
      if copySucceeds then [copy, DeleteBlob(ev.bucket, ev.name)] else [copy]
  }

  function Quarantine(cfg: Config, ev: Event, env: Services, before: seq<Call>, discarded: seq<Record>): Run {
    Run(Quarantined(discarded), before + MoveToFailed(cfg, ev, env.copySucceeds))
  }

  /** Neither part of a trace inserts, so the whole does not. */
  lemma NoInsertAppend(a: seq<Call>, b: seq<Call>)
    requires !MakesInsert(a) && !MakesInsert(b)
    ensures !MakesInsert(a + b)
  {
    forall i | 0 <= i < |a + b| ensures !(a + b)[i].InsertRows? {
      if i < |a| {
        assert (a + b)[i] == a[i];
      } else {
        assert (a + b)[i] == b[i - |a|];
      }
    }
  }

  /** Neither part of a trace moves the file, so the whole does not. */
  lemma NoMoveAppend(a: seq<Call>, b: seq<Call>)
    requires !MovesFile(a) && !MovesFile(b)
    ensures !MovesFile(a + b)
  {
    forall i | 0 <= i < |a + b| ensures !(a + b)[i].CopyBlob? && !(a + b)[i].DeleteBlob? {
      if i < |a| {
        assert (a + b)[i] == a[i];
      } else {
        assert (a + b)[i] == b[i - |a|];
      }
    }
  }

  /** One invocation of the function for the uploaded file `ev`. */
  function Invoke(cfg: Config, ev: Event, fetch: Fetch, env: Services): (r: Run)
    ensures r.outcome.NotConfigured? <==> !Present(cfg.apiKey)
    ensures r.outcome.NotConfigured? ==> r.calls == []
    ensures !r.outcome.NotConfigured? ==> r.calls != [] && r.calls[0] == DownloadText(ev.bucket, ev.name)
    ensures r.outcome.Quarantined? ==> !MakesInsert(r.calls)
    ensures r.outcome.Inserted? ==>
      && r.outcome.records != []
      && r.calls[|r.calls| - 1] == InsertRows(TableId(cfg), r.outcome.records)
      && !MakesInsert(r.calls[..|r.calls| - 1])
      && !MovesFile(r.calls)
  {
    if !Present(cfg.apiKey) then Run(NotConfigured, [])
    else
      var download := [DownloadText(ev.bucket, ev.name)];
      var rest := AfterDownload(cfg, ev, fetch, env);
      assert !MakesInsert(download) && !MovesFile(download);
      if rest.outcome.Quarantined? then
        NoInsertAppend(download, rest.calls);
        Run(rest.outcome, download + rest.calls)
      else if rest.outcome.Inserted? then
        NoMoveAppend(download, rest.calls);
        var before := rest.calls[..|rest.calls| - 1];
        NoInsertAppend(download, before);
        assert (download + rest.calls)[..|download + rest.calls| - 1] == download + before;
        Run(rest.outcome, download + rest.calls)
      else Run(rest.outcome, download + rest.calls)
  }

  /** What follows the download request: reading the file, the row loop, then quarantine or the insert. */
  function AfterDownload(cfg: Config, ev: Event, fetch: Fetch, env: Services): (r: Run)
    ensures !r.outcome.NotConfigured?
    ensures r.outcome.Quarantined? ==> !MakesInsert(r.calls)
    ensures r.outcome.Inserted? ==>
      && r.outcome.records != [] && r.calls != []
      && r.calls[|r.calls| - 1] == InsertRows(TableId(cfg), r.outcome.records)
      && !MakesInsert(r.calls[..|r.calls| - 1])
      && !MovesFile(r.calls)
  {
    match fetch
    case FetchFails => Quarantine(cfg, ev, env, [], [])
    case Fetched(csv) =>
      if csv.lines == [] then
        // No header: the reader either ends at once or raises; both quarantine.
        Quarantine(cfg, ev, env, [], [])
      else
        var b := ProcessLines(csv.lines[1..], 0, env, SourceLocator(ev), cfg.imagesBucket);
        RowLoopNeitherMovesNorInserts(csv.lines[1..], 0, env, SourceLocator(ev), cfg.imagesBucket);
        if csv.raises then
          NoInsertAppend(b.calls, MoveToFailed(cfg, ev, env.copySucceeds));
          Quarantine(cfg, ev, env, b.calls, b.records)
        else if b.records == [] then Run(NothingToInsert, b.calls)
        else
          var insert := [InsertRows(TableId(cfg), b.records)];
          assert !MovesFile(insert);
          NoMoveAppend(b.calls, insert);
          assert (b.calls + insert)[..|b.calls + insert| - 1] == b.calls;
          Run(Inserted(b.records), b.calls + insert)
  }

  /** A missing or empty API key stops the invocation before any request: no download, move or insert. */
  lemma MissingApiKeyDoesNothing(cfg: Config, ev: Event, fetch: Fetch, env: Services)
    requires !Present(cfg.apiKey)
    ensures Invoke(cfg, ev, fetch, env) == Run(NotConfigured, [])
  {
  }

  /**
   A file the reader cannot even yield a header for, or whose download fails, is moved
   to the failed bucket (when one is configured) and nothing is inserted.
   */
  lemma UnreadableFileQuarantined(cfg: Config, ev: Event, fetch: Fetch, env: Services)
    requires Present(cfg.apiKey)
    requires fetch.FetchFails? || fetch.csv.lines == []
    ensures Invoke(cfg, ev, fetch, env)
         == Run(Quarantined([]), [DownloadText(ev.bucket, ev.name)] + MoveToFailed(cfg, ev, env.copySucceeds))
  {
  }

  /**
   An exception escaping the row loop quarantines the file and discards every record
   already built, even when there are some; their generation and upload requests have
   still been made.
   */
  lemma IterationErrorDiscardsRecords(cfg: Config, ev: Event, lines: seq<seq<string>>, env: Services)
    requires Present(cfg.apiKey) && lines != []
    ensures var r := Invoke(cfg, ev, Fetched(CsvRead(lines, true)), env);
      var b := ProcessLines(lines[1..], 0, env, SourceLocator(ev), cfg.imagesBucket);
      && r.outcome == Quarantined(b.records)
      && |b.records| == |KeptRows(lines[1..])|
      && !MakesInsert(r.calls)
      && r.calls == [DownloadText(ev.bucket, ev.name)] + b.calls + MoveToFailed(cfg, ev, env.copySucceeds)
  {
  }

  /** A well-formed file in which no line qualifies is neither moved nor inserted. */
  lemma EmptyWellFormedFileIsLeftAlone(cfg: Config, ev: Event, lines: seq<seq<string>>, env: Services)
    requires Present(cfg.apiKey) && lines != [] && KeptRows(lines[1..]) == []
    ensures var r := Invoke(cfg, ev, Fetched(CsvRead(lines, false)), env);
      r.outcome == NothingToInsert && !MovesFile(r.calls) && !MakesInsert(r.calls)
  {
    var b := ProcessLines(lines[1..], 0, env, SourceLocator(ev), cfg.imagesBucket);
    RowLoopNeitherMovesNorInserts(lines[1..], 0, env, SourceLocator(ev), cfg.imagesBucket);
    var calls := [DownloadText(ev.bucket, ev.name)] + b.calls;
    assert forall i :: 0 < i < |calls| ==> calls[i] == b.calls[i - 1];
  }

  /**
   A well-formed file with a qualifying line ends in one insert of exactly the records of
   the qualifying data lines (header excluded), in order, each with `source_file`
   "gs://<bucket>/<name>".
   */
  lemma WellFormedFileInserted(cfg: Config, ev: Event, lines: seq<seq<string>>, env: Services, j: nat)
    requires Present(cfg.apiKey) && lines != [] && j < |KeptRows(lines[1..])|
    ensures var r := Invoke(cfg, ev, Fetched(CsvRead(lines, false)), env);
      && r.outcome.Inserted?
      && |r.outcome.records| == |KeptRows(lines[1..])|
      && r.outcome.records[j] == EnrichRow(KeptRows(lines[1..])[j], env.rowReplies(j), SourceLocator(ev), cfg.imagesBucket).record
      && r.outcome.records[j].sourceFile == "gs://" + ev.bucket + "/" + ev.name
      && r.calls[|r.calls| - 1] == InsertRows(TableId(cfg), r.outcome.records)
      && !MakesInsert(r.calls[..|r.calls| - 1])
      && !MovesFile(r.calls)
  {
    RecordFollowsKeptRow(lines[1..], 0, env, SourceLocator(ev), cfg.imagesBucket, j);
  }
}
