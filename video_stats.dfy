/**
 * The batch statistics endpoint (src/app/api/video-stats/route.ts): the `ids`
 * query parameter is a comma-separated list, cleaned up and bounded to 50
 * ids before the statistics lookup (an oracle, not modelled) is asked.
 */
module VideoStats {
  import opened Common
  import JsString

  const MaxIds: nat := 50

  /** `idsParam.split(',').map(s => s.trim()).filter(Boolean)`: the ids are exactly the
      non-empty trims of the comma-separated pieces; IdsStep gives their order. */
  function Ids(param: string): (ids: seq<string>)
    ensures forall k :: 0 <= k < |ids| ==> ids[k] != "" && JsString.IsTrimmed(ids[k])
    ensures forall k :: 0 <= k < |ids| ==> ',' !in ids[k]
    ensures forall x :: x in ids <==> x != "" && exists p :: p in JsString.Split(param, ',') && JsString.Trim(p) == x
  {
    var parts := JsString.Split(param, ',');
    var ids := JsString.TrimmedNonEmpty(parts);
    TrimmedHaveNoComma(parts);
    JsString.TrimmedNonEmptyMembersAll(parts);
    ids
  }

  /** The pieces are read left to right: the first piece before a comma gives the first id
      when it is not blank, and the rest of the value gives the ids after it. */
  lemma {:induction false} IdsStep(first: string, rest: string)
    requires ',' !in first
    ensures Ids(first + [','] + rest) ==
      (if JsString.Trim(first) == "" then [] else [JsString.Trim(first)]) + Ids(rest)
  {
    JsString.SplitPrefix(first, rest, ',');
    JsString.TrimmedNonEmptyCons(first, JsString.Split(rest, ','));
  }

  /** Trimming never brings a comma in. */
  lemma {:induction false} TrimmedHaveNoComma(parts: seq<string>)
    requires forall k :: 0 <= k < |parts| ==> ',' !in parts[k]
    ensures forall k :: 0 <= k < |JsString.TrimmedNonEmpty(parts)| ==> ',' !in JsString.TrimmedNonEmpty(parts)[k]
  {
    var comma := (c: char) => c == ',';
    forall k, j | 0 <= k < |parts| && 0 <= j < |parts[k]| ensures !comma(parts[k][j]) {
      assert parts[k][j] in parts[k];
    }
    JsString.TrimmedNonEmptyAvoids(parts, comma);
    var r := JsString.TrimmedNonEmpty(parts);
    forall k | 0 <= k < |r| ensures ',' !in r[k] {
      assert forall j :: 0 <= j < |r[k]| ==> comma(r[k][j]) == (r[k][j] == ',');
    }
  }

  /** A list of clean ids written with commas between them reads back as that list. */
  lemma {:induction false} IdsOfJoined(ids: seq<string>)
    requires |ids| >= 1
    requires forall k :: 0 <= k < |ids| ==> ids[k] != "" && JsString.IsTrimmed(ids[k]) && ',' !in ids[k]
    ensures Ids(JsString.Join(ids, ',')) == ids
  {
    JsString.SplitJoin(ids, ',');
    JsString.TrimmedNonEmptyKeeps(ids);
  }

  /** The response: a 400 with its message, or the lookup of `ids`. */
  datatype Response = BadRequest(error: string) | Lookup(ids: seq<string>)

  /** `GET`: the statistics are asked for exactly when there are between 1 and 50 ids. */
  function Get(idsParam: Option<string>): (r: Response)
    ensures r.Lookup? <==> Truthy(idsParam) && 1 <= |Ids(idsParam.value)| <= MaxIds
    ensures r.Lookup? ==> r.ids == Ids(idsParam.value)
    ensures r == BadRequest("max 50 ids") <==> Truthy(idsParam) && |Ids(idsParam.value)| > MaxIds
    ensures r.BadRequest? && r.error != "max 50 ids" ==> r.error == "ids required"
  {
    if !Truthy(idsParam) then BadRequest("ids required")
    else
      var ids := Ids(idsParam.value);
      if |ids| == 0 then BadRequest("ids required")
      else if |ids| > MaxIds then BadRequest("max 50 ids")
      else Lookup(ids)
  }
}
