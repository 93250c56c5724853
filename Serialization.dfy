/** Flattening one retrieved chunk into a record (app.py:82-125): every
    public, non-callable attribute is visited; `content` is classified as
    image or text, every other attribute is coerced to a primitive. */
module Serialization {
  import opened Wrappers
  import opened Strings
  import opened Values

  /** One attribute of a retrieved chunk, as `dir(chunk)` lists it. */
  datatype Attr = Attr(name: string, value: Val)

  /** A retrieved chunk: its attributes in `dir` order. */
  datatype Chunk = Chunk(attrs: seq<Attr>)

  /** The flat mapping built for a chunk (`raw_chunk`). */
  type Record = map<string, Val>

  /** The state of the attribute loop: the record so far and the
      `is_base64_content` flag. */
  datatype Serialized = Serialized(raw: Record, isImage: bool)

  /** What the `content` branch produces: the string stored under `content`
      (`None` when producing it raised) and whether it marks the chunk as
      image content. */
  datatype ContentField = ContentField(text: Option<string>, image: bool)

  /** The attribute loop visits a name that does not start with `_` and
      whose value is not callable (app.py:86). */
  predicate Visible(a: Attr) {
    !StartsWith(a.name, "_") && !a.value.Callable?
  }

  /** `dir()` lists every name once. */
  ghost predicate DistinctNames(attrs: seq<Attr>) {
    forall i, j :: 0 <= i < j < |attrs| ==> attrs[i].name != attrs[j].name
  }

  /** The string rule for image content (app.py:99-103, 108-112). */
  predicate IsImageString(s: string) {
    StartsWith(s, "data:image") && Contains(s, ";base64,")
  }

  /** Classification of the `content` value (app.py:89-112): a succeeding
      `as_base64()` wins; otherwise (no accessor, or the accessor raised)
      the value's `str()` form is stored and the string rule decides. */
  function ClassifyContent(v: Val): (c: ContentField)
    ensures c.image ==> c.text.Some?
    ensures v.Obj? && v.asBase64.Returns? ==> c == ContentField(Some(v.asBase64.b64), true)
    ensures !(v.Obj? && v.asBase64.Returns?) ==>
      c.text == StrOf(v) && (c.image <==> c.text.Some? && IsImageString(c.text.value))
  {
    match v
    case Obj(_, Returns(b64)) => ContentField(Some(b64), true)
    case _ =>
      match StrOf(v)
      case None => ContentField(None, false)
      case Some(s) => ContentField(Some(s), IsImageString(s))
  }

  /** One iteration of the attribute loop (app.py:86-125). An attribute
      whose handling raises leaves the state as it was. */
  function Step(st: Serialized, a: Attr): Serialized {
    if !Visible(a) then st
    else if a.name == "content" then
      var c := ClassifyContent(a.value);
      match c.text
      case None => st
      case Some(s) => Serialized(st.raw["content" := Str(s)], st.isImage || c.image)
    else
      match Coerce(a.value)
      case None => st
      case Some(v) => Serialized(st.raw[a.name := v], st.isImage)
  }

  /** The attribute loop over `attrs`, from an empty record and a cleared
      flag. Every stored value is primitive, `content` is always a string,
      and a chunk flagged as image always has a `content`. */
  function Serialize(attrs: seq<Attr>): (r: Serialized)
    ensures forall k :: k in r.raw ==> IsPrimitive(r.raw[k])
    ensures "content" in r.raw ==> r.raw["content"].Str?
    ensures r.isImage ==> "content" in r.raw
  {
    if attrs == [] then Serialized(map[], false)
    else Step(Serialize(attrs[..|attrs| - 1]), attrs[|attrs| - 1])
  }

  /** Every key of the record is the name of a visible attribute. */
  lemma {:induction false} SerializeKeys(attrs: seq<Attr>, k: string)
    requires k in Serialize(attrs).raw
    ensures exists i :: 0 <= i < |attrs| && attrs[i].name == k && Visible(attrs[i])
  {
    var n := |attrs| - 1;
    var prev := Serialize(attrs[..n]);
    if k in prev.raw {
      SerializeKeys(attrs[..n], k);
      var i :| 0 <= i < n && attrs[..n][i].name == k && Visible(attrs[..n][i]);
      assert attrs[i] == attrs[..n][i];
    } else {
      assert attrs[n].name == k && Visible(attrs[n]);
    }
  }

  /** A non-`content` attribute is copied when it is visible and coercible,
      with its coerced value, and is absent otherwise (app.py:113-125). */
  lemma {:induction false} SerializeField(attrs: seq<Attr>, i: nat)
    requires DistinctNames(attrs)
    requires i < |attrs| && attrs[i].name != "content"
    ensures var r := Serialize(attrs); var a := attrs[i];
      && (a.name in r.raw <==> Visible(a) && Coerce(a.value).Some?)
      && (a.name in r.raw ==> r.raw[a.name] == Coerce(a.value).value)
  {
    var n := |attrs| - 1;
    var prev := Serialize(attrs[..n]);
    if i < n {
      assert attrs[..n][i] == attrs[i];
      SerializeField(attrs[..n], i);
      assert attrs[n].name != attrs[i].name;
    } else if attrs[i].name in prev.raw {
      SerializeKeys(attrs[..n], attrs[i].name);
      assert false;
    }
  }

  /** The `content` attribute decides the record's `content` and the image
      flag (app.py:89-112). */
  lemma {:induction false} SerializeContent(attrs: seq<Attr>, i: nat)
    requires DistinctNames(attrs)
    requires i < |attrs| && attrs[i].name == "content"
    ensures var r := Serialize(attrs); var c := ClassifyContent(attrs[i].value);
      && ("content" in r.raw <==> Visible(attrs[i]) && c.text.Some?)
      && ("content" in r.raw ==> r.raw["content"] == Str(c.text.value))
      && (r.isImage <==> Visible(attrs[i]) && c.image)
  {
    var n := |attrs| - 1;
    var prev := Serialize(attrs[..n]);
    if i < n {
      assert attrs[..n][i] == attrs[i];
      SerializeContent(attrs[..n], i);
      assert attrs[n].name != "content";
    } else {
      assert forall j :: 0 <= j < n ==> attrs[..n][j].name != "content";
      SerializeNoContent(attrs[..n]);
    }
  }

  /** Without a `content` attribute the record has no `content` and the
      chunk is not flagged as image. */
  lemma {:induction false} SerializeNoContent(attrs: seq<Attr>)
    requires forall i :: 0 <= i < |attrs| ==> attrs[i].name != "content"
    ensures "content" !in Serialize(attrs).raw && !Serialize(attrs).isImage
  {
    if attrs != [] {
      var n := |attrs| - 1;
      assert forall i :: 0 <= i < n ==> attrs[..n][i].name != "content";
      SerializeNoContent(attrs[..n]);
    }
  }

  /** The attribute loop of app.py:85-125, run imperatively: the record is
      updated one attribute at a time and the flag is only ever set. */
  method SerializeAttributes(attrs: seq<Attr>) returns (raw: Record, isImage: bool)
    ensures Serialized(raw, isImage) == Serialize(attrs)
    ensures isImage ==> "content" in raw && raw["content"].Str?
  {
    raw, isImage := map[], false;
    for i := 0 to |attrs|
      invariant Serialized(raw, isImage) == Serialize(attrs[..i])
    {
      var a := attrs[i];
      if Visible(a) {
        if a.name == "content" {
          var c := ClassifyContent(a.value);
          if c.text.Some? {
            raw := raw["content" := Str(c.text.value)];
            if c.image {
              isImage := true;
            }
          }
        } else {
          var v := Coerce(a.value);
          if v.Some? {
            raw := raw[a.name := v.value];
          }
        }
      }
      assert attrs[..i + 1][..i] == attrs[..i];
    }
    assert attrs[..|attrs|] == attrs;
  }
}
