# Retrieval-result normaliser of the Morphik/Cloudinary glue service

The service (`app.py`) exposes two POST endpoints. `/api/v1/ingest` forwards a
file URL to the Morphik document SDK. `/api/v1/retrieval` asks Morphik for the
chunks that match a query and reshapes them. Each retrieved chunk is flattened
into a plain record. Its `content` is classified as image or text. An inline
`data:` image is re-uploaded to Cloudinary and replaced by the returned URL.
The record is then appended to either the image list or the text list of the
response.

This project models that normaliser and the required-field checks of both
POST handlers, and proves what they promise:

- `Strings.dfy`: `str.startswith`, the substring test `in`, first-index
  search, and the decimal form `str()` gives an integer.
- `DataUrls.dfy`: the pattern `data:([^;]+);base64,(.+)` (the base64 form of
  a data URL, RFC 2397 section 3). It is written as a total parse function,
  `ParseDataUrl`, and proved equivalent to `Matches`, a declarative reading
  of what `re.match` accepts and which groups it returns.
- `Values.dfy`: the Python values an attribute can hold, `str()` of each, and
  the coercion of non-`content` attributes to primitives.
- `Serialization.dfy`: the attribute loop. `SerializeAttributes` is the
  imperative loop. `Serialize` is the left fold that specifies it. Lemmas
  relate the record to the chunk's attributes.
- `Retrieval.dfy`: the per-chunk body (`Normalize`), the two ordered buckets,
  and the main loop `NormalizeChunks`. The loop appends each record to one of
  two sequences, and it is proved equal to the bucket functions.
- `Examples.dfy`: concrete contents, classified and parsed.
- `Requests.dfy`: the `Missing …` checks of the two POST handlers, with
  Python truthiness of JSON values.

External pieces are parameters:

- A retrieved chunk is the list of its attributes in `dir()` order
  (`Chunk.attrs`).
- The `as_base64()` accessor is the `Accessor` of an object value. It is
  absent, returns a string, or raises.
- The Cloudinary uploader is an `Uploader` oracle. It takes the chunk's
  position and the upload request and returns `Some(secure_url)` or `None`
  (the call raised).

Not every normalised chunk carries `content_type`. The code sets it only on
text chunks (`"text"`) and after a successful upload (`"image"`). An image
chunk whose content has no `data:` prefix, does not match the pattern, or
whose upload fails gets no `content_type` from the normaliser. It has one
only if the retrieved chunk had such an attribute itself. The model follows
the code here.

## Model

| member | source | states |
|---|---|---|
| `Strings.ContainsIffOccurs` | app.py:101 | the `in` scan succeeds exactly when the needle occurs at some position |
| `DataUrls.ParseDataUrl` | app.py:134-140 | a parse result is a match of the pattern: non-empty media type without `;`, non-empty payload without newline, the rendered URL a prefix of the content, followed by end or newline |
| `DataUrls.ParseDataUrlIff` | app.py:136-140 | the pattern matches with groups `d` if and only if the parser returns `d`, so the groups are unique and the parser misses no match |
| `Values.StrOf` | app.py:96 | `str()` never fails on primitives and callables, is the identity on strings, and gives an integer a sign-or-digit first character |
| `Values.Coerce` | app.py:115-121 | primitives are kept verbatim; other values become their string form, or are dropped when `str()` raises; every kept value is primitive |
| `Serialization.ClassifyContent` | app.py:89-112 | a succeeding `as_base64()` gives image content with its result; otherwise the string form is stored and is image exactly when the string rule holds; image content always has a string |
| `Serialization.Serialize` | app.py:82-125 | after the attribute loop every value is primitive, `content` is a string, and an image-flagged chunk has a `content` |
| `Serialization.SerializeKeys` | app.py:85-86 | every key of the record is the name of a visible attribute (no `_` prefix, not callable) |
| `Serialization.SerializeField` | app.py:113-125 | a non-`content` attribute is present exactly when visible and coercible, with its coerced value |
| `Serialization.SerializeContent` | app.py:89-112 | the `content` attribute decides the record's `content` and the image flag |
| `Serialization.SerializeNoContent` | app.py:83-86 | without a `content` attribute, no `content` key and no image flag |
| `Serialization.SerializeAttributes` | app.py:82-125 | the imperative attribute loop computes exactly the record and flag of `Serialize` |
| `Retrieval.Normalize` | app.py:127-164 | text chunks get `content_type = "text"` and no upload; an upload is attempted exactly for image content that parses; the uploaded string is the matched prefix sent to `morphik/<uid>`; an image chunk with no upload or a failed one is kept verbatim; a successful upload sets `content`, `image_url` and `content_type` together and changes no other key |
| `Retrieval.NormalizedValuesPrimitive` | app.py:116-121 | every value in a normalised record is primitive |
| `Retrieval.FieldCopied` | app.py:113-121 | a non-`content` attribute (other than `image_url` and `content_type`) reaches the output exactly when visible and coercible, with its coerced value |
| `Retrieval.ContentDecides` | app.py:89-161 | the bucket is the content's classification; an upload is attempted exactly for visible image content that parses; without a successful upload `content` is the classified string |
| `Retrieval.NoContentIsText` | app.py:162-164 | a chunk with no `content` attribute goes to the text bucket with no `content` key |
| `Retrieval.PlainContentClassification` | app.py:104-112 | a plain string is image content exactly when it starts with `data:image` and `;base64,` occurs in it; it is stored unchanged |
| `Retrieval.NonStringPrimitiveContentIsText` | app.py:105-112 | an int, bool or None content is always text |
| `Retrieval.Positions` | app.py:157-164 | a bucket's positions increase strictly and hold exactly the chunks classified into that bucket |
| `Retrieval.BucketSizes` | app.py:81-164 | the two buckets together have as many records as there are chunks |
| `Retrieval.BucketOrder` | app.py:157-164 | a bucket lists the records at its positions in order |
| `Retrieval.NormalizeChunks` | app.py:78-164 | the imperative loop produces exactly the two buckets, whose sizes add up to the number of chunks |
| `Examples.PngIsImage` | app.py:108-112 | `data:image/png;base64,AAAA` is image content |
| `Examples.PngParses` | app.py:136-140 | it parses into `image/png` and `AAAA` |
| `Examples.MisplacedMimeIsImage` | app.py:99-103 | `data:image;x;base64,AAA` passes the classifier |
| `Examples.MisplacedMimeDoesNotParse` | app.py:136-137 | it does not match the pattern, so nothing is uploaded |
| `Examples.PlainTextExample` | app.py:108-112 | `hello world` is text content |
| `Requests.CheckRequired` | app.py:68-71 | a request is accepted exactly when both fields are truthy; a missing primary field is reported before `user_id` |
| `Requests.ValidateIngestion` | app.py:34-39 | missing `file_url` gives 400 `Missing file_url`, checked before `user_id`; otherwise missing `user_id` gives 400 `Missing user_id` |
| `Requests.ValidateRetrieval` | app.py:65-71 | missing `query` gives 400 `Missing query`, checked before `user_id`; otherwise missing `user_id` gives 400 `Missing user_id` |
| `Requests.MissingFileUrlExample` | app.py:36-37 | a body with only `user_id` is rejected with `Missing file_url` |

## Left out

- Flask routing, `jsonify`, the GET "route active" responses, the 404 handler and `app.run` (app.py:25-27, 58, 180-189): HTTP plumbing with no logic.
- Environment and dotenv loading and `cloudinary.config` (app.py:12-20): process configuration.
- The Morphik SDK calls (`Morphik`, `signin`, `ingest_file`, `wait_for_completion`, `retrieve_chunks`) and `requests.get` (app.py:42-52, 74-76): network calls. The retrieved chunks are an input sequence.
- `cloudinary.uploader.upload` (app.py:145-150): a network call, modelled as the `Uploader` oracle. The random `public_id` (`uuid.uuid4()`) is not modelled.
- `file_extension` (app.py:142): computed but never used.
- Reflection (`dir`, `callable`, `getattr`, app.py:85-86): replaced by the explicit attribute list. A `getattr` that raises at app.py:86 is outside the per-attribute `try` and ends the request with a 500; that route-level failure is not modelled, and neither is the route-level exception-to-500 wrapping (app.py:55-56, 174-178).
- `print` logging (app.py:77, 123-125, 159, 166-168): output only.
- Floats are opaque: only their `str()` form is kept.
- A request body that is not a JSON object (`get_json()` returning `None` or a list, so that `data.get` raises) is not modelled; the body is a map from keys to JSON values.
- `Serialization.SerializeField`, `Serialization.SerializeContent`, `Retrieval.FieldCopied`, `Retrieval.ContentDecides`: stated only for chunks whose attribute names are distinct, which `dir()` guarantees.
- `Retrieval.FieldCopied`: not stated for attributes named `image_url` or `content_type`, which the normaliser itself may overwrite.
