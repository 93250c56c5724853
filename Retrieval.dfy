/** The retrieval-result normaliser of `handle_retrieval` (app.py:78-164):
    each chunk is serialised, classified, its inline image (if any) handed
    to the uploader, and the record appended to the image or the text list. */
module Retrieval {
  import opened Wrappers
  import opened Strings
  import opened Values
  import opened DataUrls
  import opened Serialization

  /** The arguments of one upload call (app.py:145-150), without the
      random `public_id`. */
  datatype UploadRequest = UploadRequest(file: string, folder: string, resourceType: string)

  /** The uploader: for the chunk at a given position and the request made
      for it, the returned `secure_url`, or `None` when the call raises or
      its result has no `secure_url`. */
  type Uploader = (nat, UploadRequest) -> Option<string>

  /** What the loop body does with one chunk: the final record, the bucket
      it goes to, and the upload call it makes, if any. */
  datatype Normalized = Normalized(record: Record, isImage: bool, request: Option<UploadRequest>)

  /** The per-user upload folder (app.py:147). */
  function Folder(uid: string): string {
    "morphik/" + uid
  }

  /** The loop body of app.py:82-164 for the chunk at position `index`. */
  function Normalize(chunk: Chunk, index: nat, uid: string, upload: Uploader): (n: Normalized)
    // the bucket is the classification of `content`
    ensures n.isImage == Serialize(chunk.attrs).isImage
    // text chunks: marked as text, nothing uploaded
    ensures !n.isImage ==> n.request.None?
    ensures !n.isImage ==> n.record == Serialize(chunk.attrs).raw["content_type" := Str("text")]
    // an upload is attempted exactly for image content that parses as a data URL
    ensures n.request.Some? <==>
      n.isImage && ParseDataUrl(Serialize(chunk.attrs).raw["content"].s).Some?
    // the uploaded string is the matched prefix of `content`, sent to the user's folder
    ensures n.request.Some? ==>
      var content := Serialize(chunk.attrs).raw["content"].s;
      && Matches(content, ParseDataUrl(content).value)
      && n.request.value.file == ParseDataUrl(content).value.Render()
      && StartsWith(content, n.request.value.file)
      && n.request.value.folder == "morphik/" + uid
      && n.request.value.resourceType == "auto"
    // an image chunk with no upload, or a failed one, is kept verbatim
    ensures n.isImage && (n.request.None? || upload(index, n.request.value).None?) ==>
      n.record == Serialize(chunk.attrs).raw
    // a successful upload sets all three keys to the returned URL and nothing else
    ensures n.request.Some? && upload(index, n.request.value).Some? ==>
      var url := upload(index, n.request.value).value;
      var raw := Serialize(chunk.attrs).raw;
      && n.record.Keys == raw.Keys + {"content", "image_url", "content_type"}
      && n.record["content"] == Str(url) && n.record["image_url"] == Str(url)
      && n.record["content_type"] == Str("image")
      && (forall k :: k in raw && k !in {"content", "image_url", "content_type"} ==> n.record[k] == raw[k])
  {
    var st := Serialize(chunk.attrs);
    if !st.isImage then
      Normalized(st.raw["content_type" := Str("text")], false, None)
    else
      var content := st.raw["content"].s;
      if !StartsWith(content, "data:") then Normalized(st.raw, true, None)
      else
        match ParseDataUrl(content)
        case None => Normalized(st.raw, true, None)
        case Some(d) =>
          var req := UploadRequest(d.Render(), Folder(uid), "auto");
          match upload(index, req)
          case None => Normalized(st.raw, true, Some(req))
          case Some(url) =>
            Normalized(st.raw["content" := Str(url)]["image_url" := Str(url)]["content_type" := Str("image")],
                       true, Some(req))
  }

  /** The loop body applied to every chunk, each with its own position. */
  function NormalizeAll(chunks: seq<Chunk>, uid: string, upload: Uploader): (outs: seq<Normalized>)
    ensures |outs| == |chunks|
    ensures forall j :: 0 <= j < |chunks| ==> outs[j] == Normalize(chunks[j], j, uid, upload)
  {
    seq(|chunks|, j requires 0 <= j < |chunks| => Normalize(chunks[j], j, uid, upload))
  }

  /** The records of the chunks that go to one bucket (`image` true: the
      `base64_chunks` list, false: `text_chunks`), in input order. */
  function Bucket(outs: seq<Normalized>, image: bool): seq<Record> {
    if outs == [] then []
    else
      var last := outs[|outs| - 1];
      Bucket(outs[..|outs| - 1], image) + (if last.isImage == image then [last.record] else [])
  }

  /** The input positions of the chunks that go to one bucket: increasing,
      and holding exactly the positions of the chunks classified into it. */
  function Positions(outs: seq<Normalized>, image: bool): (p: seq<nat>)
    ensures forall k :: 0 <= k < |p| ==> p[k] < |outs| && outs[p[k]].isImage == image
    ensures forall k1, k2 :: 0 <= k1 < k2 < |p| ==> p[k1] < p[k2]
    ensures forall j :: 0 <= j < |outs| ==> (j in p <==> outs[j].isImage == image)
  {
    if outs == [] then []
    else
      var n := |outs| - 1;
      var p0 := Positions(outs[..n], image);
      assert forall j :: 0 <= j < n ==> outs[..n][j] == outs[j];
      p0 + (if outs[n].isImage == image then [n] else [])
  }

  /** Every chunk goes to exactly one of the two buckets. */
  lemma {:induction false} BucketSizes(outs: seq<Normalized>)
    ensures |Bucket(outs, true)| + |Bucket(outs, false)| == |outs|
  {
    if outs != [] {
      BucketSizes(outs[..|outs| - 1]);
    }
  }

  /** A bucket lists the records of the chunks at its positions, in that
      order, so it holds exactly the chunks classified into it, in input
      order. */
  lemma {:induction false} BucketOrder(outs: seq<Normalized>, image: bool)
    ensures |Bucket(outs, image)| == |Positions(outs, image)|
    ensures forall k :: 0 <= k < |Positions(outs, image)| ==>
      Bucket(outs, image)[k] == outs[Positions(outs, image)[k]].record
  {
    if outs != [] {
      var n := |outs| - 1;
      var init := outs[..n];
      BucketOrder(init, image);
      var b0, p0 := Bucket(init, image), Positions(init, image);
      var b, p := Bucket(outs, image), Positions(outs, image);
      assert b == b0 + (if outs[n].isImage == image then [outs[n].record] else []);
      assert p == p0 + (if outs[n].isImage == image then [n] else []);
      forall k | 0 <= k < |p|
        ensures b[k] == outs[p[k]].record
      {
        if k < |p0| {
          assert b[k] == b0[k] && p[k] == p0[k];
          assert init[p0[k]] == outs[p0[k]];
        }
      }
    }
  }

  /** The normalising loop of app.py:78-164: each chunk's attributes are
      serialised, the record is patched after a successful upload, and the
      record is appended to `images` or `texts`. */
  method NormalizeChunks(chunks: seq<Chunk>, uid: string, upload: Uploader)
    returns (images: seq<Record>, texts: seq<Record>)
    ensures images == Bucket(NormalizeAll(chunks, uid, upload), true)
    ensures texts == Bucket(NormalizeAll(chunks, uid, upload), false)
    ensures |images| + |texts| == |chunks|
  {
    ghost var outs := NormalizeAll(chunks, uid, upload);
    images, texts := [], [];
    for i := 0 to |chunks|
      invariant images == Bucket(outs[..i], true)
      invariant texts == Bucket(outs[..i], false)
    {
      var raw, isImage := SerializeAttributes(chunks[i].attrs);
      ghost var raw0 := raw;
      if isImage {
        var content := raw["content"].s;
        if StartsWith(content, "data:") {
          var parsed := ParseDataUrl(content);
          if parsed.Some? {
            var result := upload(i, UploadRequest(parsed.value.Render(), Folder(uid), "auto"));
            if result.Some? {
              raw := raw["content" := Str(result.value)];
              raw := raw["image_url" := Str(result.value)];
              raw := raw["content_type" := Str("image")];
            }
          }
        }
        images := images + [raw];
      } else {
        raw := raw["content_type" := Str("text")];
        texts := texts + [raw];
      }
      assert Serialized(raw0, isImage) == Serialize(chunks[i].attrs);
      assert outs[i] == Normalize(chunks[i], i, uid, upload);
      assert outs[..i + 1][..i] == outs[..i];
    }
    assert outs[..|chunks|] == outs;
    BucketSizes(outs);
  }

  /** No structured value reaches the output: every value of a normalised
      record is a primitive (app.py:116-121, 153-155, 163). */
  lemma NormalizedValuesPrimitive(chunk: Chunk, index: nat, uid: string, upload: Uploader)
    ensures var n := Normalize(chunk, index, uid, upload);
      forall k :: k in n.record ==> IsPrimitive(n.record[k])
  {
  }

  /** A non-`content` attribute of the chunk, other than the two keys the
      normaliser writes itself, reaches the output record exactly when it is
      visible and coercible, with its coerced value (app.py:113-121). */
  lemma FieldCopied(chunk: Chunk, index: nat, uid: string, upload: Uploader, i: nat)
    requires DistinctNames(chunk.attrs)
    requires i < |chunk.attrs|
    requires chunk.attrs[i].name !in {"content", "image_url", "content_type"}
    ensures var n := Normalize(chunk, index, uid, upload); var a := chunk.attrs[i];
      && (a.name in n.record <==> Visible(a) && Coerce(a.value).Some?)
      && (a.name in n.record ==> n.record[a.name] == Coerce(a.value).value)
  {
    SerializeField(chunk.attrs, i);
  }

  /** The `content` attribute alone decides the bucket and whether an upload
      is attempted; when no upload succeeds, `content` keeps the string the
      classification produced (app.py:89-112, 128-161). */
  lemma ContentDecides(chunk: Chunk, index: nat, uid: string, upload: Uploader, i: nat)
    requires DistinctNames(chunk.attrs)
    requires i < |chunk.attrs| && chunk.attrs[i].name == "content"
    ensures var n := Normalize(chunk, index, uid, upload); var a := chunk.attrs[i];
      var c := ClassifyContent(a.value);
      && (n.isImage <==> Visible(a) && c.image)
      && (n.request.Some? <==> Visible(a) && c.image && ParseDataUrl(c.text.value).Some?)
      && (n.request.None? || upload(index, n.request.value).None? ==>
            && ("content" in n.record <==> Visible(a) && c.text.Some?)
            && ("content" in n.record ==> n.record["content"] == Str(c.text.value)))
  {
    SerializeContent(chunk.attrs, i);
  }

  /** A chunk without a `content` attribute is a text chunk with no
      `content` key. */
  lemma NoContentIsText(chunk: Chunk, index: nat, uid: string, upload: Uploader)
    requires forall i :: 0 <= i < |chunk.attrs| ==> chunk.attrs[i].name != "content"
    ensures var n := Normalize(chunk, index, uid, upload);
      !n.isImage && n.request.None? && "content" !in n.record && n.record["content_type"] == Str("text")
  {
    SerializeNoContent(chunk.attrs);
  }

  /** A plain string content is image content exactly when it starts with
      `data:image` and `;base64,` occurs somewhere in it. */
  lemma PlainContentClassification(s: string)
    ensures ClassifyContent(Str(s)).image <==>
      StartsWith(s, "data:image") && exists i :: OccursAt(s, ";base64,", i)
    ensures ClassifyContent(Str(s)).text == Some(s)
  {
    ContainsIffOccurs(s, ";base64,");
  }

  /** Content that is an int, a bool or None is always text: its string
      form starts with a digit, `-`, `T`, `F` or `N`, never with `d`. */
  lemma NonStringPrimitiveContentIsText(v: Val)
    requires v.Int? || v.Bool? || v.NoneVal?
    ensures !ClassifyContent(v).image && ClassifyContent(v).text.Some?
  {
  }
}
