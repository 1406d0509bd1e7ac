/**
 The two halves together: a record the ingestion function inserts, read back by the
 gallery's query. The warehouse stores the record's six fields unchanged; the
 `processed_at` timestamp becomes the integer key the query orders by.
 */
module Flow {
  import opened Optional
  import opened Strings
  import Ingest
  import Gallery

  /** The row the warehouse holds for an inserted record, ordered by `key`. */
  function Stored(rec: Ingest.Record, key: int): Gallery.TableRow {
    Gallery.TableRow(rec.productName, rec.keywords, rec.generatedContent, Some(rec.generatedImageUrl), key)
  }

  /** Both failure markers the image field can carry start with "Error", so the filter drops them. */
  lemma ErrorMarkersHidden(rec: Ingest.Record, key: int)
    requires rec.generatedImageUrl == Ingest.NoImageMarker || rec.generatedImageUrl == Ingest.ImageFailedMarker
    ensures !Gallery.Displayable(Stored(rec, key))
  {
    var url := rec.generatedImageUrl;
    assert url[..|Gallery.ErrorPrefix|] == Gallery.ErrorPrefix;
  }

  /** The skip marker does not start with "Error", so the gallery's filter lets it through. */
  lemma SkippedMarkerShown(rec: Ingest.Record, key: int)
    requires rec.generatedImageUrl == Ingest.SkippedMarker
    ensures Gallery.Displayable(Stored(rec, key))
  {
    assert Ingest.SkippedMarker[0] != Gallery.ErrorPrefix[0];
  }

  /**
   An enriched row passes the gallery's filter exactly when its image step was skipped,
   or when the first part carried bytes, the upload went through, and the public URL
   does not itself start with "Error".
   */
  lemma DisplayableIff(p: Ingest.Product, replies: Ingest.RowReplies, source: string, imagesBucket: Option<string>, key: int)
    ensures var rec := Ingest.EnrichRow(p, replies, source, imagesBucket).record;
      Gallery.Displayable(Stored(rec, key)) <==>
        || !Ingest.GuardOpens(replies.text)
        || (&& Ingest.HasImageBytes(replies.image)
            && replies.upload.Uploaded?
            && !StartsWith(replies.upload.publicUrl, Gallery.ErrorPrefix))
  {
    var r := Ingest.EnrichRow(p, replies, source, imagesBucket);
    if !Ingest.GuardOpens(replies.text) {
      SkippedMarkerShown(r.record, key);
    } else {
      var s := Ingest.ImageStepOf(p.name, Ingest.GeneratedText(replies.text), replies, imagesBucket);
      assert r.record.generatedImageUrl == s.url;
      Ingest.ImageStepUrl(p.name, Ingest.GeneratedText(replies.text), replies, imagesBucket);
      if !(Ingest.HasImageBytes(replies.image) && replies.upload.Uploaded?) {
        ErrorMarkersHidden(r.record, key);
      }
    }
  }

  /**
   A row whose text request failed reaches the gallery: it passes the filter and its
   card shows the text-failure marker as copy and the skip marker as the picture URL.
   */
  lemma FailedTextReachesGallery(p: Ingest.Product, replies: Ingest.RowReplies, source: string, imagesBucket: Option<string>, key: int)
    requires replies.text.TextFails?
    ensures var row := Stored(Ingest.EnrichRow(p, replies, source, imagesBucket).record, key);
      && Gallery.Displayable(row)
      && Gallery.TileOf(Gallery.CardOf(row)).copy == Ingest.TextFailedMarker
      && Gallery.TileOf(Gallery.CardOf(row)).picture == Some(Ingest.SkippedMarker)
  {
    Ingest.TextFailureSkipsImage(p, replies, source, imagesBucket);
    var r := Ingest.EnrichRow(p, replies, source, imagesBucket);
    SkippedMarkerShown(r.record, key);
  }

  /**
   A failed-text row stored in the table is among the query's results unless it is
   crowded out: then 20 rows are selected and none of them is older than it.
   */
  lemma FailedTextSelectedUnlessCrowdedOut(p: Ingest.Product, replies: Ingest.RowReplies, source: string,
                                           imagesBucket: Option<string>, key: int, rows: seq<Gallery.TableRow>)
    requires replies.text.TextFails?
    ensures var row := Stored(Ingest.EnrichRow(p, replies, source, imagesBucket).record, key);
      var sel := Gallery.Selected(rows);
      row in rows ==>
        || row in sel
        || (|sel| == Gallery.Limit && forall i :: 0 <= i < |sel| ==> row.processedAt <= sel[i].processedAt)
  {
    var row := Stored(Ingest.EnrichRow(p, replies, source, imagesBucket).record, key);
    var sel := Gallery.Selected(rows);
    if row !in rows || row in sel {
      return;
    }
    FailedTextReachesGallery(p, replies, source, imagesBucket, key);
    assert multiset(sel)[row] == 0 < multiset(rows)[row];
    Gallery.SelectedAreNewest(rows, row);
  }
}
