/**
 * The URL fragment's query part: getParamFromUrl (js/main.js:224-228),
 * parseParams (js/main.js:125-137) and getSortIdx (js/main.js:144-152).
 */
module Params {
  import opened Wrappers
  import opened Js
  import opened JsStrings

  /** The sort column used when the fragment names none: 'Stars'. */
  const DefaultSortIdx: int := 3

  /**
   * Setting `params['__proto__']` to a string runs Object.prototype's
   * __proto__ setter, which ignores non-objects: no property is created.
   */
  const ProtoKey: string := "__proto__"

  /** getParamFromUrl: the fragment without its leading character, decoded; "" when that is empty. */
  function ParamFromHash(hash: string, host: Host): string
  {
    if |hash| <= 1 then "" else host.decodeURIComponent(hash[1..])
  }

  /** `url.split("?")[1]` when `url` has a '?': the text between the first and second '?'. */
  function QuerySegment(url: string): string
  {
    ContainsChar(url, '?');
    SplitParts(url, '?');
    if Contains(url, "?") then Split(url, '?')[1] else ""
  }

  /** The `&`-separated pieces parseParams walks through; none for an empty segment. */
  function Pieces(url: string): seq<string>
  {
    var segment := QuerySegment(url);
    if segment == "" then [] else Split(segment, '&')
  }

  /** `const [key, value] = param.split("=")`: the key is the text before the first '='. */
  function KeyOf(piece: string): string
  {
    Split(piece, '=')[0]
  }

  /** The value: the text between the first and second '=', or undefined without '='. */
  function RawValueOf(piece: string): Option<string>
  {
    var parts := Split(piece, '=');
    if |parts| >= 2 then Some(parts[1]) else None
  }

  /** decodeURIComponent(value): undefined is converted to the string "undefined" first. */
  function DecodedValue(piece: string, host: Host): string
  {
    host.decodeURIComponent(match RawValueOf(piece) case Some(v) => v case None => "undefined")
  }

  /** `params[key] = decodeURIComponent(value)` for one piece. */
  function Assign(params: map<string, string>, piece: string, host: Host): map<string, string>
  {
    if KeyOf(piece) == ProtoKey then params else params[KeyOf(piece) := DecodedValue(piece, host)]
  }

  /** The dictionary after the forEach has handled `pieces` in order. */
  function ParamsOf(pieces: seq<string>, host: Host): map<string, string>
  {
    if pieces == [] then map[]
    else Assign(ParamsOf(pieces[..|pieces| - 1], host), pieces[|pieces| - 1], host)
  }

  /** Handling one more piece is one more Assign. */
  lemma ParamsOfStep(pieces: seq<string>, i: nat, host: Host)
    requires i < |pieces|
    ensures ParamsOf(pieces[..i + 1], host) == Assign(ParamsOf(pieces[..i], host), pieces[i], host)
  {
    assert pieces[..i + 1][..i] == pieces[..i];
  }

  /** parseParams: fills the dictionary piece by piece, as the forEach does. */
  method ParseParams(url: string, host: Host) returns (params: map<string, string>)
    ensures params == ParamsOf(Pieces(url), host)
  {
    var pieces: seq<string> := [];
    ContainsChar(url, '?');
    if Contains(url, "?") {
      SplitParts(url, '?');
      var paramString := Split(url, '?')[1];
      if paramString != "" {
        pieces := Split(paramString, '&');
      }
    }
    assert pieces == Pieces(url);
    params := map[];
    for i := 0 to |pieces|
      invariant params == ParamsOf(pieces[..i], host)
    {
      var parts := Split(pieces[i], '=');
      var key := parts[0];
      var value := if |parts| >= 2 then parts[1] else "undefined";
      if key != ProtoKey {
        params := params[key := host.decodeURIComponent(value)];
      }
      ParamsOfStep(pieces, i, host);
    }
    assert pieces[..|pieces|] == pieces;
  }

  /** The index of the last piece whose key is `key`, if any. */
  function LastWithKey(pieces: seq<string>, key: string): (r: Option<nat>)
    ensures r.Some? ==> r.value < |pieces| && KeyOf(pieces[r.value]) == key
    ensures r.Some? ==> forall j :: r.value < j < |pieces| ==> KeyOf(pieces[j]) != key
    ensures r.None? ==> forall j :: 0 <= j < |pieces| ==> KeyOf(pieces[j]) != key
  {
    if pieces == [] then None
    else if KeyOf(pieces[|pieces| - 1]) == key then Some(|pieces| - 1)
    else LastWithKey(pieces[..|pieces| - 1], key)
  }

  /**
   * A key is in the dictionary exactly when some piece has it (and it is not
   * __proto__), and its value comes from the last such piece: later pieces
   * overwrite earlier ones.
   */
  lemma {:induction false} ParamsOfLookup(pieces: seq<string>, host: Host, key: string)
    ensures key in ParamsOf(pieces, host) <==> key != ProtoKey && LastWithKey(pieces, key).Some?
    ensures key in ParamsOf(pieces, host) ==>
      ParamsOf(pieces, host)[key] == DecodedValue(pieces[LastWithKey(pieces, key).value], host)
  {
    if pieces != [] {
      ParamsOfLookup(pieces[..|pieces| - 1], host, key);
    }
  }

  /** The dictionary's keys are the keys of the pieces, less __proto__. */
  lemma ParamsKeys(pieces: seq<string>, host: Host)
    ensures ParamsOf(pieces, host).Keys == (set i | 0 <= i < |pieces| :: KeyOf(pieces[i])) - {ProtoKey}
  {
    forall key ensures key in ParamsOf(pieces, host) <==> key in (set i | 0 <= i < |pieces| :: KeyOf(pieces[i])) - {ProtoKey} {
      ParamsOfLookup(pieces, host, key);
    }
  }

  /** No '?', or nothing between the first and the second '?': an empty dictionary. */
  lemma NoQueryNoParams(url: string, host: Host)
    requires '?' !in url || QuerySegment(url) == ""
    ensures ParamsOf(Pieces(url), host) == map[]
  {
    ContainsChar(url, '?');
  }

  /** The segment of `x?segment` or `x?segment?…` is `segment` when `x` and `segment` have no '?'. */
  lemma QuerySegmentOf(x: string, segment: string, rest: string)
    requires '?' !in x && '?' !in segment
    requires rest == "" || rest[0] == '?'
    ensures QuerySegment(x + "?" + segment + rest) == segment
  {
    var url := x + ['?'] + (segment + rest);
    assert x + "?" + segment + rest == url;
    SplitAfterFirst(x, '?', segment + rest);
    SegmentBeforeRest(segment, rest);
    ContainsChar(url, '?');
  }

  /** What follows the first '?' splits into the segment first. */
  lemma SegmentBeforeRest(segment: string, rest: string)
    requires '?' !in segment
    requires rest == "" || rest[0] == '?'
    ensures Split(segment + rest, '?')[0] == segment
  {
    if rest == "" {
      assert segment + rest == segment;
      SplitParts(segment, '?');
    } else {
      assert segment + rest == segment + ['?'] + rest[1..];
      SplitAfterFirst(segment, '?', rest[1..]);
    }
  }

  /** The value getSortIdx returns: 3, or the decoded value of the last `sort` piece. */
  function SortIdxOf(url: string, host: Host): JsVal
  {
    var pieces := Pieces(url);
    match LastWithKey(pieces, "sort")
    case None => Num(DefaultSortIdx)
    case Some(i) => Str(DecodedValue(pieces[i], host))
  }

  /** getSortIdx: 3 unless the dictionary has `sort`, whose string value is then returned as it is. */
  method GetSortIdx(url: string, host: Host) returns (sort: JsVal)
    ensures sort == SortIdxOf(url, host)
    ensures sort == Num(DefaultSortIdx) || sort.Str?
  {
    var params := ParseParams(url, host);
    sort := Num(DefaultSortIdx);
    if "sort" in params {
      sort := Str(params["sort"]);
    }
    ParamsOfLookup(Pieces(url), host, "sort");
  }

  /** A fragment without '?' has no `sort`, so the default 3 is returned. */
  lemma NoQueryDefaultSort(url: string, host: Host)
    requires '?' !in url
    ensures SortIdxOf(url, host) == Num(DefaultSortIdx)
  {
    ContainsChar(url, '?');
  }

  /**
   * `x?sort=v` with `v` free of '?', '&' and '=' gives the decoded `v`, a
   * string, never converted to a number.
   */
  lemma SortParamValue(x: string, v: string, host: Host)
    requires '?' !in x && '?' !in v && '&' !in v && '=' !in v
    ensures SortIdxOf(x + "?sort=" + v, host) == Str(host.decodeURIComponent(v))
  {
    var piece := "sort=" + v;
    assert x + "?sort=" + v == x + "?" + piece + "";
    QuerySegmentOf(x, piece, "");
    SplitParts(piece, '&');
    assert Pieces(x + "?sort=" + v) == [piece];
    assert piece == "sort" + ['='] + v;
    SplitAfterFirst("sort", '=', v);
    SplitParts(v, '=');
    assert KeyOf(piece) == "sort";
    assert RawValueOf(piece) == Some(v);
  }
}
