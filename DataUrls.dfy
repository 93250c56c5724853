/** The `data:` URL pattern the normaliser matches an image chunk's content
    against (app.py:136): `data:([^;]+);base64,(.+)`, applied with
    `re.match`, so anchored at the start of the string and not at its end.
    The media type and payload groups are the two fields of `DataUrl`. */
module DataUrls {
  import opened Wrappers
  import opened Strings

  /** A data URL with base64 encoding, in the form RFC 2397 section 3 writes
      as `data:<mediatype>;base64,<data>`. */
  datatype DataUrl = DataUrl(mime: string, payload: string) {
    /** The string handed to the uploader: `data:{mime};base64,{payload}`. */
    function Render(): string {
      "data:" + mime + ";base64," + payload
    }
  }

  /** The regular expression matches a prefix of `s` with `d.mime` as its
      first group and `d.payload` as its second: the media type is a
      non-empty run without `;`, the payload a non-empty run without a
      newline (`.` does not match `\n`), and because `.+` is greedy the
      match stops only at a newline or at the end of `s`. */
  ghost predicate Matches(s: string, d: DataUrl) {
    && |d.mime| > 0 && ';' !in d.mime
    && |d.payload| > 0 && '\n' !in d.payload
    && StartsWith(s, d.Render())
    && (|s| == |d.Render()| || s[|d.Render()|] == '\n')
  }

  /** `re.match(r"data:([^;]+);base64,(.+)", s)` as a total function:
      `Some` with both groups when the pattern matches, `None` otherwise. */
  function ParseDataUrl(s: string): (r: Option<DataUrl>)
    ensures r.Some? ==> Matches(s, r.value)
  {
    if !StartsWith(s, "data:") then None
    else
      var rest := s[5..];
      var i := FirstIndex(rest, ';');
      if i == 0 || i == |rest| then None
      else
        var after := rest[i + 1..];
        if !StartsWith(after, "base64,") then None
        else
          var body := after[7..];
          var j := FirstIndex(body, '\n');
          if j == 0 then None
          else
            SplitMatches(s, rest[..i], body[..j], body[j..]);
            Some(DataUrl(rest[..i], body[..j]))
  }

  /** A string that is a rendered data URL followed by a tail that is empty
      or begins with a newline is matched with those two groups. */
  lemma SplitMatches(s: string, mime: string, payload: string, tail: string)
    requires |mime| > 0 && ';' !in mime
    requires |payload| > 0 && '\n' !in payload
    requires tail == [] || tail[0] == '\n'
    requires s == "data:" + (mime + ([';'] + ("base64," + (payload + tail))))
    ensures Matches(s, DataUrl(mime, payload))
  {
  }

  /** Every match is the one the parser finds: the two groups are
      determined by the string, so the pattern matches `s` with groups `d`
      exactly when the parser returns `d`. */
  lemma ParseDataUrlIff(s: string, d: DataUrl)
    ensures Matches(s, d) <==> ParseDataUrl(s) == Some(d)
  {
    if Matches(s, d) {
      ParseDataUrlComplete(s, d);
    }
  }

  /** Where the parts of a rendered data URL sit. */
  lemma RenderParts(d: DataUrl)
    ensures var r, m := d.Render(), |d.mime|;
      && |r| == 13 + m + |d.payload|
      && r[..5] == "data:" && r[5..5 + m] == d.mime && r[5 + m] == ';'
      && r[6 + m..13 + m] == "base64," && r[13 + m..] == d.payload
  {
  }

  lemma ParseDataUrlComplete(s: string, d: DataUrl)
    requires Matches(s, d)
    ensures ParseDataUrl(s) == Some(d)
  {
    var r, m, q := d.Render(), |d.mime|, |d.payload|;
    RenderParts(d);
    assert s[..|r|] == r;
    assert forall a, b :: 0 <= a <= b <= |r| ==> s[a..b] == r[a..b];
    var rest := s[5..];
    assert rest[..m] == s[5..5 + m] == d.mime;
    assert rest[m] == ';';
    FirstIndexAt(rest, ';', m);
    var after := rest[m + 1..];
    assert after[..7] == s[6 + m..13 + m];
    var body := after[7..];
    assert body == s[13 + m..];
    assert body[..q] == s[13 + m..13 + m + q] == r[13 + m..];
    assert forall j :: 0 <= j < q ==> body[j] == d.payload[j];
    FirstIndexAt(body, '\n', q);
  }
}
