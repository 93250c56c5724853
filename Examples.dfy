/** The classification and parsing of a few concrete `content` strings. */
module Examples {
  import opened Wrappers
  import opened Strings
  import opened Values
  import opened DataUrls
  import opened Serialization
  import opened Retrieval

  /** `data:image/png;base64,AAAA` is image content. */
  lemma PngIsImage()
    ensures ClassifyContent(Str("data:image/png;base64,AAAA")).image
  {
    var s := "data:image/png;base64,AAAA";
    assert s[..10] == "data:image";
    assert s[14..22] == ";base64,";
    assert OccursAt(s, ";base64,", 14);
    PlainContentClassification(s);
  }

  /** `data:image/png;base64,AAAA` parses into the media type `image/png`
      and the payload `AAAA`. */
  lemma PngParses()
    ensures ParseDataUrl("data:image/png;base64,AAAA") == Some(DataUrl("image/png", "AAAA"))
  {
    var s := "data:image/png;base64,AAAA";
    var d := DataUrl("image/png", "AAAA");
    assert d.Render() == s;
    assert forall k :: 0 <= k < |d.mime| ==> d.mime[k] != ';';
    assert forall k :: 0 <= k < |d.payload| ==> d.payload[k] != '\n';
    assert Matches(s, d);
    ParseDataUrlIff(s, d);
  }

  /** `data:image;x;base64,AAA` passes the classifier ... */
  lemma MisplacedMimeIsImage()
    ensures ClassifyContent(Str("data:image;x;base64,AAA")).image
  {
    var s := "data:image;x;base64,AAA";
    assert s[..10] == "data:image";
    assert s[12..20] == ";base64,";
    assert OccursAt(s, ";base64,", 12);
    PlainContentClassification(s);
  }

  /** ... but not the pattern, because the media type stops at the first
      `;`: such a chunk is bucketed as image and nothing is uploaded. */
  lemma MisplacedMimeDoesNotParse()
    ensures ParseDataUrl("data:image;x;base64,AAA") == None
  {
    var s := "data:image;x;base64,AAA";
    assert s[..5] == "data:";
    var rest := s[5..];
    assert rest[5] == ';';
    assert forall k :: 0 <= k < 5 ==> rest[k] != ';';
    FirstIndexAt(rest, ';', 5);
    var after := rest[6..];
    assert after[0] == 'x';
    assert !StartsWith(after, "base64,") by {
      assert "base64,"[0] == 'b';
    }
  }

  /** `hello world` is text content. */
  lemma PlainTextExample()
    ensures !ClassifyContent(Str("hello world")).image
  {
    var s := "hello world";
    assert s[..10][0] == 'h';
  }
}
