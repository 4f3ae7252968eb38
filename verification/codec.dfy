/**
 * Turning a profile into a shareable hash and back (`encodeSoul` / `decodeSoul`).
 *
 * Compression and JSON text are library code that is not part of this model; they enter as the
 * four functions of an `Env`, and `Lawful` states the round-trip laws the code relies on.
 * What the model pins down exactly is the code's own logic: the timestamp added on encoding,
 * the null/empty check after decompression, the caught parse failure and the shape check.
 */
module Codec {
  import opened Wrappers
  import opened Js
  import opened Questions

  /** The libraries: URI-safe compression and JSON text. `parse` yields `Err` where `JSON.parse` throws. */
  datatype Env = Env(
    compress: string -> string,
    decompress: string -> Option<string>,
    stringify: Json -> string,
    parse: string -> Result<Json, string>)

  /** Decompression undoes compression, parsing undoes serialising, and serialised JSON is never empty. */
  ghost predicate Lawful(e: Env) {
    && (forall s :: e.decompress(e.compress(s)) == Some(s))
    && (forall j :: e.parse(e.stringify(j)) == Ok(j))
    && (forall j :: e.stringify(j) != "")
  }

  /** What the questionnaire hands to the encoder: a profile without its timestamp. */
  datatype Draft = Draft(version: int, name: Option<string>, kind: Option<Scenario>, answers: seq<int>)

  /** A decoded profile: the parsed object as the rest of the application reads it. */
  datatype Profile = Profile(
    version: int,
    name: Option<Json>,
    kind: Option<Json>,
    answers: seq<Json>,
    timestamp: Option<Json>)

  function Numbers(xs: seq<int>): (r: seq<Json>)
    ensures |r| == |xs|
    ensures forall i :: 0 <= i < |xs| ==> r[i] == JNum(xs[i])
  {
    seq(|xs|, i requires 0 <= i < |xs| => JNum(xs[i]))
  }

  /** The object `JSON.stringify` receives: the draft's fields plus the clock reading; absent fields are dropped. */
  function ToJson(d: Draft, now: int): (r: Json)
    ensures Get(r, "version") == Some(JNum(d.version))
    ensures Get(r, "answers") == Some(JArr(Numbers(d.answers)))
    ensures Get(r, "timestamp") == Some(JNum(now))
    ensures Get(r, "name") == (if d.name.Some? then Some(JStr(d.name.value)) else None)
    ensures Get(r, "type") == (if d.kind.Some? then Some(JStr(d.kind.value.Name())) else None)
    ensures r.JObj? && r.fields.Keys <= {"version", "answers", "timestamp", "name", "type"}
  {
    var base := map["version" := JNum(d.version), "answers" := JArr(Numbers(d.answers)), "timestamp" := JNum(now)];
    var named := if d.name.Some? then base["name" := JStr(d.name.value)] else base;
    JObj(if d.kind.Some? then named["type" := JStr(d.kind.value.Name())] else named)
  }

  /** `encodeSoul`; `now` is the clock reading `Date.now()`. */
  function Encode(e: Env, d: Draft, now: int): string {
    e.compress(e.stringify(ToJson(d, now)))
  }

  /** The shape check: a numeric `version` and an array `answers`. */
  predicate Shaped(j: Json) {
    match j
    case JObj(m) => "version" in m && m["version"].JNum? && "answers" in m && m["answers"].JArr?
    case _ => false
  }

  function View(j: Json): Profile
    requires Shaped(j)
  {
    Profile(j.fields["version"].n, Get(j, "name"), Get(j, "type"), j.fields["answers"].items, Get(j, "timestamp"))
  }

  /**
   * `decodeSoul`: `None` when decompression gives null or "", when parsing fails, or when the
   * parsed value is not shaped like a profile; otherwise the parsed object. Nothing else is checked.
   */
  function Decode(e: Env, hash: string): (r: Option<Profile>)
    ensures e.decompress(hash).None? ==> r.None?
    ensures e.decompress(hash) == Some("") ==> r.None?
    ensures r.Some? <==>
      (e.decompress(hash).Some? && e.decompress(hash).value != ""
       && e.parse(e.decompress(hash).value).Ok? && Shaped(e.parse(e.decompress(hash).value).value))
  {
    match e.decompress(hash)
    case None => None
    case Some(text) =>
      if text == "" then None
      else
        match e.parse(text)
        case Err(_) => None
        case Ok(j) => if Shaped(j) then Some(View(j)) else None
  }

  /** A decoded profile carries exactly the parsed object's `version`, `answers`, `name`, `type` and `timestamp`. */
  lemma DecodeReadsParsed(e: Env, hash: string)
    requires Decode(e, hash).Some?
    ensures var j := e.parse(e.decompress(hash).value).value;
      && j.JObj?
      && Get(j, "version") == Some(JNum(Decode(e, hash).value.version))
      && Get(j, "answers") == Some(JArr(Decode(e, hash).value.answers))
      && Get(j, "name") == Decode(e, hash).value.name
      && Get(j, "type") == Decode(e, hash).value.kind
  {
  }

  /**
   * Decoding an encoded draft gives back its version, name, type and answers, plus the timestamp
   * taken at encoding; the answers' length and values and the type are never checked.
   */
  lemma DecodeEncode(e: Env, d: Draft, now: int)
    requires Lawful(e)
    ensures Decode(e, Encode(e, d, now)) == Some(Profile(
      d.version,
      if d.name.Some? then Some(JStr(d.name.value)) else None,
      if d.kind.Some? then Some(JStr(d.kind.value.Name())) else None,
      Numbers(d.answers),
      Some(JNum(now))))
  {
    var j := ToJson(d, now);
    assert e.decompress(Encode(e, d, now)) == Some(e.stringify(j));
    assert e.parse(e.stringify(j)) == Ok(j);
  }
}
