/** `responseOk`: the middleware that replaces `res.json` so that a successful
    response body carries `ok: true`. */
module ResponseHandler {

  /** A JSON value as `res.json` receives it. Object key order is not modelled. */
  datatype JsonValue =
    | JNull
    | JBool(b: bool)
    | JNumber(n: real)
    | JString(s: string)
    | JArray(items: seq<JsonValue>)
    | JObject(fields: map<string, JsonValue>)

  function DigitChar(d: nat): (c: char)
    requires d < 10
    ensures '0' <= c <= '9'
    ensures c as int - '0' as int == d
  {
    ('0' as int + d) as char
  }

  /** The property name an index becomes (`String(i)`). */
  function DecimalDigits(n: nat): (r: string)
    ensures |r| >= 1 && '0' <= r[0] <= '9'
    decreases n
  {
    if n < 10 then [DigitChar(n)] else DecimalDigits(n / 10) + [DigitChar(n % 10)]
  }

  /** Distinct indices give distinct property names. */
  lemma {:induction false} DecimalDigitsInjective(a: nat, b: nat)
    requires DecimalDigits(a) == DecimalDigits(b)
    ensures a == b
    decreases a
  {
    var da, db := DecimalDigits(a), DecimalDigits(b);
    if a >= 10 && b >= 10 {
      assert da[|da| - 1] == db[|db| - 1];
      assert da[..|da| - 1] == DecimalDigits(a / 10);
      assert db[..|db| - 1] == DecimalDigits(b / 10);
      DecimalDigitsInjective(a / 10, b / 10);
    } else if a < 10 && b < 10 {
      assert da[0] == db[0];
    }
  }

  /** `s`'s code points under their indices, as `{...s}` gives them for a string
      with no character outside the Basic Multilingual Plane. */
  function IndexEntries(s: string): map<string, JsonValue>
    decreases |s|
  {
    if s == [] then map[] else IndexEntries(s[..|s| - 1])[DecimalDigits(|s| - 1) := JString([s[|s| - 1]])]
  }

  /** Code point `i` of a spread string sits under the name of `i`. */
  lemma {:induction false} IndexEntriesLookup(s: string, i: nat)
    requires i < |s|
    ensures DecimalDigits(i) in IndexEntries(s) && IndexEntries(s)[DecimalDigits(i)] == JString([s[i]])
    decreases |s|
  {
    var n := |s| - 1;
    if i < n {
      IndexEntriesLookup(s[..n], i);
      if DecimalDigits(i) == DecimalDigits(n) {
        DecimalDigitsInjective(i, n);
      }
    }
  }

  /** A spread string has no property other than its indices. */
  lemma {:induction false} IndexEntriesKeys(s: string, k: string)
    requires k in IndexEntries(s)
    ensures exists i :: 0 <= i < |s| && k == DecimalDigits(i)
    decreases |s|
  {
    var n := |s| - 1;
    if k != DecimalDigits(n) {
      IndexEntriesKeys(s[..n], k);
    }
  }

  /** What `{...data}` copies: an object's own properties, a string's code points under
      their indices, and nothing for `null`, booleans and numbers. */
  function OwnEntries(data: JsonValue): (r: map<string, JsonValue>)
    requires !data.JArray?
    ensures data.JObject? ==> r == data.fields
    ensures data.JString? ==> r == IndexEntries(data.s)
    ensures data.JNull? || data.JBool? || data.JNumber? ==> r == map[]
  {
    match data
    case JObject(fields) => fields
    case JString(s) => IndexEntries(s)
    case _ => map[]
  }

  predicate Successful(status: int)
  {
    200 <= status < 300
  }

  /** The overriding `res.json`'s choice of body: on a 2xx status a non-array body becomes
      `{ok: true, ...data}`; an array, or any body on another status, is sent unchanged. */
  function WrapBody(status: int, data: JsonValue): (r: JsonValue)
    ensures !Successful(status) || data.JArray? ==> r == data
    ensures Successful(status) && !data.JArray? ==>
              && r.JObject?
              && r.fields.Keys == OwnEntries(data).Keys + {"ok"}
              && (forall k :: k in OwnEntries(data) ==> r.fields[k] == OwnEntries(data)[k])
              && ("ok" !in OwnEntries(data) ==> r.fields["ok"] == JBool(true))
  {
    if Successful(status) then
      if data.JArray? then data else JObject(map["ok" := JBool(true)] + OwnEntries(data))
    else data
  }

  /** Only an object body that has its own `ok` can override the flag; every other
      non-array body on success carries `ok: true`. */
  lemma OkUnlessOverridden(status: int, data: JsonValue)
    requires Successful(status) && !data.JArray?
    requires !(data.JObject? && "ok" in data.fields)
    ensures WrapBody(status, data).fields["ok"] == JBool(true)
  {
    if data.JString? && "ok" in IndexEntries(data.s) {
      IndexEntriesKeys(data.s, "ok");
    }
  }

  /** Wrapping a wrapped body changes nothing. */
  lemma WrapIdempotent(status: int, data: JsonValue)
    ensures WrapBody(status, WrapBody(status, data)) == WrapBody(status, data)
  {
    if Successful(status) && !data.JArray? {
      var f := WrapBody(status, data).fields;
      assert map["ok" := JBool(true)] + f == f;
    }
  }

  /** The body that reaches the original `json` after `layers` installations of the middleware. */
  function Wrapped(layers: nat, status: int, data: JsonValue): JsonValue
    decreases layers
  {
    if layers == 0 then data else WrapBody(status, Wrapped(layers - 1, status, data))
  }

  /** Installing the middleware more than once has the effect of installing it once. */
  lemma {:induction false} WrappedCollapses(layers: nat, status: int, data: JsonValue)
    requires layers > 0
    ensures Wrapped(layers, status, data) == WrapBody(status, data)
    decreases layers
  {
    if layers > 1 {
      WrappedCollapses(layers - 1, status, data);
      WrapIdempotent(status, data);
    }
  }

  /** The parts of an Express response the middleware touches. */
  class Response {
    /** `res.statusCode`, 200 until `status` is called. */
    var statusCode: int
    /** How many times `responseOk` has replaced `json` on this response. */
    var jsonLayers: nat
    /** The bodies handed to the original `json`, in order. */
    var sent: seq<JsonValue>

    constructor ()
      ensures statusCode == 200 && jsonLayers == 0 && sent == []
    {
      statusCode := 200;
      jsonLayers := 0;
      sent := [];
    }

    /** `res.status(code)`. */
    method Status(code: int)
      modifies this
      ensures statusCode == code
      ensures jsonLayers == old(jsonLayers) && sent == old(sent)
    {
      statusCode := code;
    }

    /** `res.json(data)`, through every layer the middleware installed. */
    method Json(data: JsonValue)
      modifies this
      ensures sent == old(sent) + [Wrapped(jsonLayers, statusCode, data)]
      ensures statusCode == old(statusCode) && jsonLayers == old(jsonLayers)
    {
      var body := data;
      if jsonLayers > 0 {
        WrappedCollapses(jsonLayers, statusCode, data);
        body := WrapBody(statusCode, data);
      }
      sent := sent + [body];
    }
  }

  /** `responseOk(req, res, next)`: replace `res.json` by the wrapping version. */
  method ResponseOk(res: Response)
    modifies res
    ensures res.jsonLayers == old(res.jsonLayers) + 1
    ensures res.statusCode == old(res.statusCode) && res.sent == old(res.sent)
  {
    res.jsonLayers := res.jsonLayers + 1;
  }
}
