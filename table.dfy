/**
 * The column list and the sort fallback of initDT (js/main.js:65-89), and
 * the values updateDT (js/main.js:45-63) computes: the two HTML fields added
 * to each fork record and the positional projection of every record through
 * the column list.
 */
module Table {
  import opened Wrappers
  import opened Js
  import opened JsStrings
  import opened Params

  /** One `[label, key]` pair of window.columnNamesMap. */
  datatype Column = Column(title: string, key: string)

  /** window.columnNamesMap: the table's columns, in display order. */
  const ColumnNamesMap: seq<Column> := [
    Column("Owner", "ownerName"),
    Column("Link", "repoLink"),
    Column("Branch", "default_branch"),
    Column("Stars", "stargazers_count"),
    Column("Forks", "forks"),
    Column("Open Issues", "open_issues_count"),
    Column("Size", "size"),
    Column("Last Push", "pushed_at")
  ]

  /** `columnNamesMap.map(pair => pair[0])`. */
  function Labels(columns: seq<Column>): (r: seq<string>)
  {
    seq(|columns|, i requires 0 <= i < |columns| => columns[i].title)
  }

  /** Array.prototype.indexOf: the first position of `x`, or -1. */
  function ArrayIndexOf(xs: seq<string>, x: string): (r: int)
    ensures r == -1 <==> x !in xs
    ensures r != -1 ==> 0 <= r < |xs| && xs[r] == x && forall j :: 0 <= j < r ==> xs[j] != x
  {
    if xs == [] then -1
    else if xs[0] == x then 0
    else
      var i := ArrayIndexOf(xs[1..], x);
      if i == -1 then -1 else i + 1
  }

  /** The table has 8 columns and 'Stars' is the fourth: getSortIdx's default 3 is its index. */
  lemma StarsColumn()
    ensures |Labels(ColumnNamesMap)| == 8
    ensures ArrayIndexOf(Labels(ColumnNamesMap), "Stars") == DefaultSortIdx
  {
    var labels := Labels(ColumnNamesMap);
    assert labels[0] != "Stars" && labels[1] != "Stars" && labels[2] != "Stars";
    assert labels[3] == "Stars";
  }

  /** The test of js/main.js:83: `sortIdx && !isNaN(sortIdx) && sortIdx < count`. */
  predicate SortIdxAccepted(sortIdx: JsVal, count: int, host: Host)
  {
    Truthy(sortIdx) && !IsNaN(sortIdx, host) && LessThan(sortIdx, count, host)
  }

  /**
   * initDT's sortColumnIdx: the given value itself when it passes the test
   * against the 8 columns, otherwise the index of 'Stars', 3.
   */
  function ResolveSortColumn(sortIdx: JsVal, host: Host): (r: JsVal)
    ensures SortIdxAccepted(sortIdx, 8, host) ==> r == sortIdx
    ensures !SortIdxAccepted(sortIdx, 8, host) ==> r == Num(3)
  {
    StarsColumn();
    var labels := Labels(ColumnNamesMap);
    if SortIdxAccepted(sortIdx, |labels|, host) then sortIdx
    else Num(ArrayIndexOf(labels, "Stars"))
  }

  /** Without a `sort` parameter the table is sorted on 'Stars'. */
  lemma DefaultSortIsStars(host: Host)
    ensures ResolveSortColumn(Num(DefaultSortIdx), host) == Num(DefaultSortIdx)
    ensures Labels(ColumnNamesMap)[DefaultSortIdx] == "Stars"
  {
    StarsColumn();
  }

  /**
   * A `sort` string is kept exactly when it is non-empty, converts to a
   * number and that number is below 8; any other string gives 3.
   */
  lemma StringSortColumn(s: string, host: Host)
    ensures ResolveSortColumn(Str(s), host) == Str(s) <==>
      s != "" && !host.stringToNumber(s).NaN? && LessThan(Str(s), 8, host)
    ensures ResolveSortColumn(Str(s), host) != Str(s) ==> ResolveSortColumn(Str(s), host) == Num(3)
  {
  }

  /** Negative numbers are not rejected: "-1" stays the sort column. */
  lemma NegativeSortAccepted(s: string, v: real, host: Host)
    requires s != "" && host.stringToNumber(s) == Finite(v) && v < 0.0
    ensures ResolveSortColumn(Str(s), host) == Str(s)
  {
  }

  /**
   * End to end, for a fragment `x?sort=<n>` with an integer `n`: the column
   * is the string itself when n < 8 (also 0 and negative numbers, since the
   * non-empty string "0" is truthy), and 3 otherwise.
   */
  lemma IntegerSortParam(x: string, n: int, host: Host)
    requires DecodesPlainText(host) && ReadsIntegers(host)
    requires '?' !in x
    ensures ResolveSortColumn(SortIdxOf(x + "?sort=" + IntToString(n), host), host)
      == if n < 8 then Str(IntToString(n)) else Num(3)
  {
    var v := IntToString(n);
    assert forall i :: 0 <= i < |v| ==> v[i] != '?' && v[i] != '&' && v[i] != '=' && v[i] != '%';
    SortParamValue(x, v, host);
    assert host.decodeURIComponent(v) == v;
    assert host.stringToNumber(v) == Finite(n as real);
    assert v != "" by {
      if n < 0 { assert v[0] == '-'; } else { assert |NatToString(n)| >= 1; }
    }
  }

  /** The avatar used when the owner has no (truthy) avatar_url. */
  const DefaultAvatar: string := "https://avatars.githubusercontent.com/u/0?v=4"

  /** The placeholder written instead of an owner link. */
  const UnknownOwnerHtml: string := "<strike><em>Unknown</em></strike>"

  /** The markup around the links and the avatar image of the templates. */
  const LinkOpen: string := "<a href=\"https://github.com/"
  const LinkMiddle: string := "\">"
  const LinkClose: string := "</a>"
  const ImgOpen: string := "<img src=\""
  const ImgAttrs: string := "&s=48\" width=\"24\" height=\"24\" class=\"mr-2 rounded-circle\" />"

  /** `fork.repoLink`: a link to the fork, labelled with its name. */
  function RepoLinkHtml(fork: Record): string
  {
    Concat([LinkOpen, Display(Get(fork, "full_name")), LinkMiddle, Display(Get(fork, "name")), LinkClose])
  }

  /** `fork.owner.avatar_url || <default avatar>`, for an owner that can be read. */
  function AvatarSrc(owner: JsVal): JsVal
    requires !Nullish(owner)
  {
    var url := Prop(owner, "avatar_url");
    if Truthy(url) then url else Str(DefaultAvatar)
  }

  /** The owner link up to its closing tag: the profile URL, labelled with the login. */
  function OwnerLinkOpen(owner: JsVal): string
    requires !Nullish(owner)
  {
    Concat([LinkOpen, Display(Prop(owner, "login")), LinkMiddle, Display(Prop(owner, "login"))])
  }

  /** The link to the owner's profile. */
  function OwnerLinkHtml(owner: JsVal): string
    requires !Nullish(owner)
  {
    OwnerLinkOpen(owner) + LinkClose
  }

  /** `fork.owner ? <owner link> : <placeholder>`. */
  function OwnerTailHtml(owner: JsVal): string
    requires !Nullish(owner)
  {
    if Truthy(owner) then OwnerLinkHtml(owner) else UnknownOwnerHtml
  }

  /** The avatar image at the start of `fork.ownerName`. */
  function AvatarImgHtml(owner: JsVal): string
    requires !Nullish(owner)
  {
    Concat([ImgOpen, Display(AvatarSrc(owner)), ImgAttrs])
  }

  /** `fork.ownerName`: the avatar image, then the owner link or the placeholder. */
  function OwnerNameHtml(owner: JsVal): string
    requires !Nullish(owner)
  {
    AvatarImgHtml(owner) + OwnerTailHtml(owner)
  }

  /** Text ending in "</a>" does not end with the placeholder. */
  lemma LinkIsNotPlaceholder(text: string)
    ensures !EndsWith(text + LinkClose, UnknownOwnerHtml)
  {
    var s := text + LinkClose;
    var u := UnknownOwnerHtml;
    assert s[|s| - 2] == 'a' && u[|u| - 2] == 'e';
    if |u| <= |s| {
      assert s[|s| - |u|..][|u| - 2] == 'a';
    }
  }

  /**
   * The placeholder ends ownerName exactly when the owner is falsy; since
   * null and undefined cannot get here, that is an owner of false, 0 or "".
   */
  lemma UnknownOnlyForFalsyOwner(owner: JsVal)
    requires !Nullish(owner)
    ensures EndsWith(OwnerNameHtml(owner), UnknownOwnerHtml) <==> !Truthy(owner)
  {
    if Truthy(owner) {
      TruthyOwnerLinks(owner);
    } else {
      var html := OwnerNameHtml(owner);
      assert html[|html| - |UnknownOwnerHtml|..] == UnknownOwnerHtml;
    }
  }

  /** A truthy owner's ownerName ends with the link's "</a>", not with the placeholder. */
  lemma TruthyOwnerLinks(owner: JsVal)
    requires !Nullish(owner) && Truthy(owner)
    ensures !EndsWith(OwnerNameHtml(owner), UnknownOwnerHtml)
  {
    var front := AvatarImgHtml(owner) + OwnerLinkOpen(owner);
    assert OwnerNameHtml(owner) == front + LinkClose;
    LinkIsNotPlaceholder(front);
  }

  /** The text V8 puts around the value whose property could not be read. */
  const ReadErrorHead: string := "Cannot read properties of "
  const ReadErrorTail: string := " (reading 'avatar_url')"

  /** The error line 53 throws when `fork.owner` is null or undefined (V8's wording). */
  function NullOwnerError(owner: JsVal): JsError
  {
    JsError("TypeError", ReadErrorHead + Display(owner) + ReadErrorTail)
  }

  /** The record after line 52: `repoLink` added. */
  function WithRepoLink(fork: Record): Record
  {
    fork["repoLink" := Str(RepoLinkHtml(fork))]
  }

  /** The record after lines 52-53, for an owner that can be read. */
  function Enriched(fork: Record): Record
    requires !Nullish(Get(fork, "owner"))
  {
    var linked := WithRepoLink(fork);
    assert Get(linked, "owner") == Get(fork, "owner");
    linked["ownerName" := Str(OwnerNameHtml(Get(linked, "owner")))]
  }

  /** The first record whose owner is null or undefined, if any. */
  function FirstNullOwner(forks: seq<Record>): (r: Option<nat>)
    ensures r.None? <==> forall i :: 0 <= i < |forks| ==> !Nullish(Get(forks[i], "owner"))
    ensures r.Some? ==> r.value < |forks| && Nullish(Get(forks[r.value], "owner"))
    ensures r.Some? ==> forall i :: 0 <= i < r.value ==> !Nullish(Get(forks[i], "owner"))
  {
    if forks == [] then None
    else if Nullish(Get(forks[0], "owner")) then Some(0)
    else match FirstNullOwner(forks[1..])
      case None => None
      case Some(i) => Some(i + 1)
  }

  /** A null or undefined owner after only readable ones is the first. */
  lemma FirstNullOwnerAt(forks: seq<Record>, i: nat)
    requires i < |forks| && Nullish(Get(forks[i], "owner"))
    requires forall k :: 0 <= k < i ==> !Nullish(Get(forks[k], "owner"))
    ensures FirstNullOwner(forks) == Some(i)
  {
    var r := FirstNullOwner(forks);
    assert r.Some?;
    assert !(r.value < i);
  }

  /** `columnNamesMap.map(colNM => fork[colNM[1]])`: one row, positionally. */
  function Row(fork: Record, columns: seq<Column>): seq<JsVal>
  {
    seq(|columns|, j requires 0 <= j < |columns| => Get(fork, columns[j].key))
  }

  /** `forks.map(fork => …)`: one row per record, in order. */
  function DataSet(forks: seq<Record>, columns: seq<Column>): seq<seq<JsVal>>
  {
    seq(|forks|, i requires 0 <= i < |forks| => Row(forks[i], columns))
  }

  /** Every record enriched, when every owner can be read. */
  function AllEnriched(forks: seq<Record>): (r: seq<Record>)
    requires forall i :: 0 <= i < |forks| ==> !Nullish(Get(forks[i], "owner"))
    ensures |r| == |forks|
  {
    if forks == [] then []
    else AllEnriched(forks[..|forks| - 1]) + [Enriched(forks[|forks| - 1])]
  }

  /** AllEnriched enriches each record where it stands. */
  lemma {:induction false} AllEnrichedAt(forks: seq<Record>, i: nat)
    requires forall k :: 0 <= k < |forks| ==> !Nullish(Get(forks[k], "owner"))
    requires i < |forks|
    ensures AllEnriched(forks)[i] == Enriched(forks[i])
  {
    if i < |forks| - 1 {
      AllEnrichedAt(forks[..|forks| - 1], i);
    }
  }


  /**
   * What updateDT hands to the table: the rows of the enriched records, or
   * the TypeError of the first record whose owner is null or undefined.
   */
  function BuildRows(forks: seq<Record>): Result<seq<seq<JsVal>>, JsError>
  {
    match FirstNullOwner(forks)
    case Some(i) => Failure(NullOwnerError(Get(forks[i], "owner")))
    case None => Success(DataSet(AllEnriched(forks), ColumnNamesMap))
  }

  /**
   * An enriched record's row: the owner HTML, the repository link, then
   * the record's own branch, stars, forks, open issues, size and last push.
   */
  lemma EnrichedRow(fork: Record)
    requires !Nullish(Get(fork, "owner"))
    ensures |Row(Enriched(fork), ColumnNamesMap)| == |ColumnNamesMap|
    ensures Row(Enriched(fork), ColumnNamesMap)[0] == Str(OwnerNameHtml(Get(fork, "owner")))
    ensures Row(Enriched(fork), ColumnNamesMap)[1] == Str(RepoLinkHtml(fork))
    ensures forall j :: 2 <= j < |ColumnNamesMap| ==>
      Row(Enriched(fork), ColumnNamesMap)[j] == Get(fork, ColumnNamesMap[j].key)
  {
    var row := Row(Enriched(fork), ColumnNamesMap);
    forall j | 2 <= j < |ColumnNamesMap| ensures row[j] == Get(fork, ColumnNamesMap[j].key) {
      assert ColumnNamesMap[j].key != "repoLink" && ColumnNamesMap[j].key != "ownerName";
    }
  }

  /**
   * updateDT's rows: produced exactly when no owner is null or undefined;
   * then one row per record, in order, each as long as the column list,
   * holding the record's value for each column's key.
   */
  lemma BuildRowsShape(forks: seq<Record>)
    ensures BuildRows(forks).Success? <==> forall i :: 0 <= i < |forks| ==> !Nullish(Get(forks[i], "owner"))
    ensures BuildRows(forks).Success? ==>
      var rows := BuildRows(forks).value;
      |rows| == |forks| &&
      forall i :: 0 <= i < |forks| ==>
        |rows[i]| == |ColumnNamesMap| &&
        rows[i][0] == Str(OwnerNameHtml(Get(forks[i], "owner"))) &&
        rows[i][1] == Str(RepoLinkHtml(forks[i])) &&
        forall j :: 2 <= j < |ColumnNamesMap| ==> rows[i][j] == Get(forks[i], ColumnNamesMap[j].key)
  {
    if BuildRows(forks).Success? {
      var rows := BuildRows(forks).value;
      assert rows == DataSet(AllEnriched(forks), ColumnNamesMap);
      forall i | 0 <= i < |forks| ensures
        |rows[i]| == |ColumnNamesMap| &&
        rows[i][0] == Str(OwnerNameHtml(Get(forks[i], "owner"))) &&
        rows[i][1] == Str(RepoLinkHtml(forks[i])) &&
        forall j :: 2 <= j < |ColumnNamesMap| ==> rows[i][j] == Get(forks[i], ColumnNamesMap[j].key)
      {
        AllEnrichedAt(forks, i);
        assert rows[i] == Row(Enriched(forks[i]), ColumnNamesMap);
        EnrichedRow(forks[i]);
      }
    }
  }

  /** A record whose owner is null makes updateDT throw; no "Unknown" row is produced. */
  lemma NullOwnerThrows(fork: Record)
    requires Get(fork, "owner") == Null
    ensures BuildRows([fork]) == Failure(JsError("TypeError", ReadErrorHead + "null" + ReadErrorTail))
  {
    assert FirstNullOwner([fork]) == Some(0);
  }
}
