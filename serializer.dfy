/**
 * Row normalisation: the generic per-value conversion every repository applies, and the
 * tolerant decoding chain the footprint repository applies to its `levels` field.
 */
module Serializer {
  import opened Wrappers
  import opened Values
  import IsoTime

  /**
   * One step of `_serialize_row`: datetimes and dates become their ISO text, decimals
   * become floats, and every other value (None included) passes through untouched.
   */
  function SerializeValue(v: Value): (r: Value)
    ensures !r.VDateTime? && !r.VDate? && !r.VDecimal?
    ensures !v.VDateTime? && !v.VDate? && !v.VDecimal? ==> r == v
    ensures v.VDateTime? ==> r == VStr(IsoTime.DateTimeIsoFormat(v.dt))
    ensures v.VDate? ==> r == VStr(IsoTime.DateIsoFormat(v.date))
    ensures v.VDecimal? ==> r == VFloat(v.d)
  {
    match v
    case VDateTime(t) => VStr(IsoTime.DateTimeIsoFormat(t))
    case VDate(d) => VStr(IsoTime.DateIsoFormat(d))
    case VDecimal(d) => VFloat(d)
    case _ => v
  }

  /** Serialising an already serialised value changes nothing. */
  lemma SerializeValueIdempotent(v: Value)
    ensures SerializeValue(SerializeValue(v)) == SerializeValue(v)
  {
  }

  /** Specification of `_serialize_row`: the same keys in the same order, each value serialised. */
  function SerializedRow(row: Row): (r: Row)
    ensures Keys(r) == Keys(row)
    ensures forall k :: Get(r, k) == match Get(row, k)
                                    case None => None
                                    case Some(v) => Some(SerializeValue(v))
  {
    var r := seq(|row|, i requires 0 <= i < |row| => Field(row[i].key, SerializeValue(row[i].value)));
    assert Keys(r) == Keys(row);
    forall k ensures Get(r, k) == match Get(row, k) case None => None case Some(v) => Some(SerializeValue(v)) {
      KeysDetermineIndex(r, row, k);
    }
    r
  }

  /** `_serialize_row`: fills a fresh dict one key at a time, in the row's order. */
  method SerializeRow(row: Row) returns (serialized: Row)
    ensures serialized == SerializedRow(row)
  {
    serialized := [];
    for i := 0 to |row|
      invariant |serialized| == i
      invariant forall j :: 0 <= j < i ==> serialized[j] == Field(row[j].key, SerializeValue(row[j].value))
    {
      var key, value := row[i].key, row[i].value;
      assert key !in Keys(serialized) by {
        forall j | 0 <= j < i ensures Keys(serialized)[j] != key {
          assert serialized[j].key == row[j].key;
        }
      }
      if value.VDateTime? {
        serialized := Set(serialized, key, VStr(IsoTime.DateTimeIsoFormat(value.dt)));
      } else if value.VDate? {
        serialized := Set(serialized, key, VStr(IsoTime.DateIsoFormat(value.date)));
      } else if value.VDecimal? {
        serialized := Set(serialized, key, VFloat(value.d));
      } else {
        serialized := Set(serialized, key, value);
      }
    }
  }

  /** First link of the `levels` chain: bytes that decode as UTF-8 become that text. */
  function DecodeUtf8Step(v: Value, decodeUtf8: seq<byte> -> Option<string>): (r: Value)
    ensures r != v ==> v.VBytes? && r.VStr? && decodeUtf8(v.bytes) == Some(r.s)
    ensures v.VBytes? && decodeUtf8(v.bytes).Some? ==> r == VStr(decodeUtf8(v.bytes).value)
  {
    if v.VBytes? && decodeUtf8(v.bytes).Some? then VStr(decodeUtf8(v.bytes).value) else v
  }

  /** Second link: text that parses as JSON becomes the parsed value. */
  function ParseJsonStep(v: Value, loadsJson: string -> Option<Value>): (r: Value)
    ensures r != v ==> v.VStr? && loadsJson(v.s) == Some(r)
    ensures v.VStr? && loadsJson(v.s).Some? ==> r == loadsJson(v.s).value
  {
    if v.VStr? && loadsJson(v.s).Some? then loadsJson(v.s).value else v
  }

  /**
   * The footprint repository's post-processing of one serialised row: the `levels`
   * value goes through both links of the chain; a failed link leaves the value it was
   * given, so the step never raises. No other field changes and no key is added.
   */
  function DecodeLevels(row: Row, decodeUtf8: seq<byte> -> Option<string>,
                        loadsJson: string -> Option<Value>): (r: Row)
    ensures Keys(r) == Keys(row)
    ensures forall k :: k != "levels" ==> Get(r, k) == Get(row, k)
    ensures Get(row, "levels").None? ==> r == row
    ensures Get(row, "levels").Some? ==>
      Get(r, "levels") == Some(ParseJsonStep(DecodeUtf8Step(Get(row, "levels").value, decodeUtf8), loadsJson))
  {
    match Get(row, "levels")
    case None => row
    case Some(v) => Set(row, "levels", ParseJsonStep(DecodeUtf8Step(v, decodeUtf8), loadsJson))
  }

  /**
   * The statements of the footprint loop that follow `_serialize_row`: read `levels`
   * with `.get`, replace it by its decoded text when it is bytes that decode, then by
   * the parsed value when it is text that parses.
   */
  method DecodeLevelsStep(serialized: Row, decodeUtf8: seq<byte> -> Option<string>,
                          loadsJson: string -> Option<Value>) returns (out: Row)
    ensures out == DecodeLevels(serialized, decodeUtf8, loadsJson)
  {
    out := serialized;
    var levels := GetOrNull(out, "levels");
    if levels.VBytes? {
      var text := decodeUtf8(levels.bytes);
      if text.Some? {
        levels := VStr(text.value);
        out := Set(out, "levels", levels);
        if loadsJson(text.value).Some? {
          SetOverwrite(serialized, "levels", levels, loadsJson(text.value).value);
        }
      }
    }
    if levels.VStr? {
      var parsed := loadsJson(levels.s);
      if parsed.Some? {
        out := Set(out, "levels", parsed.value);
      }
    }
    if "levels" in Keys(serialized) {
      SetSame(serialized, "levels");
    }
  }

  /** The outcomes of the chain, case by case. */
  lemma LevelsOutcomes(row: Row, decodeUtf8: seq<byte> -> Option<string>,
                       loadsJson: string -> Option<Value>, v: Value)
    requires Get(row, "levels") == Some(v)
    ensures var out := Get(DecodeLevels(row, decodeUtf8, loadsJson), "levels").value;
      && (v.VBytes? && decodeUtf8(v.bytes).Some? && loadsJson(decodeUtf8(v.bytes).value).Some? ==>
            out == loadsJson(decodeUtf8(v.bytes).value).value)
      && (v.VBytes? && decodeUtf8(v.bytes).Some? && loadsJson(decodeUtf8(v.bytes).value).None? ==>
            out == VStr(decodeUtf8(v.bytes).value))
      && (v.VBytes? && decodeUtf8(v.bytes).None? ==> out == v)
      && (v.VStr? && loadsJson(v.s).Some? ==> out == loadsJson(v.s).value)
      && (v.VStr? && loadsJson(v.s).None? ==> out == v)
      && (!v.VBytes? && !v.VStr? ==> out == v)
  {
  }
}
