/**
 * CoreTagIndexLinkHandler: the link handler that claims URLs of the tag index
 * page, decodes their query parameters and opens one of three tag screens.
 *
 * The handler's side effect (navigating through the link helper's goInSite)
 * is returned as a Navigation value; query parameters arrive as a map from
 * name to string, a name that is not in the map being undefined.
 */
module TagIndexLinkHandler {
  import opened Wrappers
  import opened EcmaParseInt

  const HandlerName: string := "CoreTagIndexLinkHandler"

  /** The handler's pattern /\/tag\/index\.php/ has no operator: it matches the literal text. */
  const PatternText: string := "/tag/index.php"

  // ---------------------------------------------------------------------------
  // URL claim
  // ---------------------------------------------------------------------------

  ghost predicate OccursAt(url: string, i: int) {
    0 <= i && i + |PatternText| <= |url| && url[i..i + |PatternText|] == PatternText
  }

  /** Past a start position that does not match, the occurrences are those of the rest of the URL. */
  lemma OccurrenceInTail(url: string)
    requires |PatternText| <= |url| && url[..|PatternText|] != PatternText
    ensures (exists i :: OccursAt(url, i)) <==> (exists j :: OccursAt(url[1..], j))
  {
    if i :| OccursAt(url, i) {
      assert i != 0;
      assert url[1..][i - 1..i - 1 + |PatternText|] == url[i..i + |PatternText|];
      assert OccursAt(url[1..], i - 1);
    }
    if j :| OccursAt(url[1..], j) {
      assert url[1..][j..j + |PatternText|] == url[j + 1..j + 1 + |PatternText|];
      assert OccursAt(url, j + 1);
    }
  }

  /** RegExp test of the unanchored pattern: tries every start position of the URL in turn. */
  function Matches(url: string): (r: bool)
    ensures r <==> exists i :: OccursAt(url, i)
  {
    if |url| < |PatternText| then
      false
    else if url[..|PatternText|] == PatternText then
      assert OccursAt(url, 0);
      true
    else
      OccurrenceInTail(url);
      Matches(url[1..])
  }

  // ---------------------------------------------------------------------------
  // Parameter decoding
  // ---------------------------------------------------------------------------

  /** The record handed to the tag index screens. */
  datatype PageParams = PageParams(
    tagId: int,
    tagName: string,
    collectionId: int,
    areaId: int,
    fromContextId: int,
    contextId: int,
    recursive: int)

  function Lookup(params: map<string, string>, key: string): (v: Option<string>)
    ensures v.Some? <==> key in params
    ensures v.Some? ==> v.value == params[key]
  {
    if key in params then Some(params[key]) else None
  }

  /** `parseInt(value, 10) || default`: a falsy Number (NaN, +0, -0) gives way to the default. */
  function DecodeNumber(v: Option<string>, default: int): (r: int)
    ensures r == default || r != 0
  {
    var n := ParseInt10(JsToString(v));
    if n.Truthy() then n.Value() else default
  }

  /** `value || ''` for a string value: undefined and '' both give ''. */
  function DecodeString(v: Option<string>): (r: string)
    ensures v.Some? ==> r == v.value
    ensures v.None? ==> r == ""
  {
    match v
    case None => ""
    case Some(s) => if s == "" then "" else s
  }

  /** The numeric fields of the record, each named by the query key it is read from. */
  datatype NumericKey = Id | Tc | Ta | From | Ctx | Rec {

    function Name(): string {
      match this
      case Id => "id"
      case Tc => "tc"
      case Ta => "ta"
      case From => "from"
      case Ctx => "ctx"
      case Rec => "rec"
    }

    /** The value the field takes when its parameter yields no non-zero number. */
    function Default(): int {
      if Rec? then 1 else 0
    }
  }

  /** `parseInt(params[key], 10) || default` for one numeric field. */
  function DecodeField(params: map<string, string>, key: NumericKey): int {
    DecodeNumber(Lookup(params, key.Name()), key.Default())
  }

  function DecodeParams(params: map<string, string>): (p: PageParams)
    ensures p.recursive != 0
    ensures p.tagName == if "tag" in params then params["tag"] else ""
  {
    PageParams(
      tagId := DecodeField(params, Id),
      tagName := DecodeString(Lookup(params, "tag")),
      collectionId := DecodeField(params, Tc),
      areaId := DecodeField(params, Ta),
      fromContextId := DecodeField(params, From),
      contextId := DecodeField(params, Ctx),
      recursive := DecodeField(params, Rec))
  }

  /** The numeric field of a record that `key` names. */
  function NumericField(p: PageParams, key: NumericKey): int {
    match key
    case Id => p.tagId
    case Tc => p.collectionId
    case Ta => p.areaId
    case From => p.fromContextId
    case Ctx => p.contextId
    case Rec => p.recursive
  }

  /** The query parameter of `key` is present and starts with a non-zero decimal numeral. */
  ghost predicate Carries(params: map<string, string>, key: NumericKey) {
    key.Name() in params && HasNonZeroPrefix(params[key.Name()])
  }

  /** A numeral (after white space and a sign) whose value is not zero is decoded as its signed value. */
  lemma DecodeNumberFromPrefix(v: Option<string>, default: int, ws: string, sign: string, digits: string, rest: string)
    requires PrefixSplit(JsToString(v), ws, sign, digits, rest) && DecimalValue(digits) != 0
    ensures DecodeNumber(v, default) == Signed(sign, DecimalValue(digits))
  {
    ParseIntOfPrefixSplit(JsToString(v), ws, sign, digits, rest);
  }

  /** Without such a numeral (absent, not numeric, "0x...", all zeros) the default is taken. */
  lemma DecodeNumberFallsBack(v: Option<string>, default: int)
    requires v.Some? ==> !HasNonZeroPrefix(v.value)
    ensures DecodeNumber(v, default) == default
  {
    if v.None? {
      UndefinedHasNoPrefix();
    }
    ParseIntTruthyIff(JsToString(v));
  }

  /** Each numeric field is the signed numeral its parameter starts with, when that numeral is not zero. */
  lemma NumericFieldFromPrefix(params: map<string, string>, key: NumericKey,
                               ws: string, sign: string, digits: string, rest: string)
    requires key.Name() in params
    requires PrefixSplit(params[key.Name()], ws, sign, digits, rest) && DecimalValue(digits) != 0
    ensures NumericField(DecodeParams(params), key) == Signed(sign, DecimalValue(digits))
  {
    DecodeNumberFromPrefix(Lookup(params, key.Name()), key.Default(), ws, sign, digits, rest);
  }

  /** Otherwise the field takes its default: 1 for `rec`, 0 for the others. */
  lemma NumericFieldDefault(params: map<string, string>, key: NumericKey)
    requires !Carries(params, key)
    ensures NumericField(DecodeParams(params), key) == key.Default()
  {
    DecodeNumberFallsBack(Lookup(params, key.Name()), key.Default());
  }

  /** A field whose default is 0 is non-zero exactly when its parameter carries a non-zero numeral. */
  lemma NumericFieldNonZeroIff(params: map<string, string>, key: NumericKey)
    requires key != Rec
    ensures NumericField(DecodeParams(params), key) != 0 <==> Carries(params, key)
  {
    if Carries(params, key) {
      var ws, sign, digits, rest :| PrefixSplit(params[key.Name()], ws, sign, digits, rest) && DecimalValue(digits) != 0;
      NumericFieldFromPrefix(params, key, ws, sign, digits, rest);
    } else {
      NumericFieldDefault(params, key);
    }
  }

  /** An integer parameter value written as a decimal numeral is decoded back to n, or to the default when n is 0. */
  lemma DecodeNumberOfNumberToString(n: int, default: int)
    ensures DecodeNumber(Some(NumberToString(n)), default) == if n == 0 then default else n
  {
    ParseIntOfNumberToString(n);
  }

  /** A field whose parameter is the decimal numeral of an integer n is n, or its default when n is 0. */
  lemma NumericFieldOfNumber(params: map<string, string>, key: NumericKey, n: int)
    requires key.Name() in params && params[key.Name()] == NumberToString(n)
    ensures NumericField(DecodeParams(params), key) == if n == 0 then key.Default() else n
  {
    DecodeNumberOfNumberToString(n, key.Default());
  }

  /** An absent parameter leaves its field at the default. */
  lemma AbsentFieldIsDefault(params: map<string, string>, key: NumericKey)
    requires key.Name() !in params
    ensures NumericField(DecodeParams(params), key) == key.Default()
  {
    NumericFieldDefault(params, key);
  }

  // ---------------------------------------------------------------------------
  // Target choice
  // ---------------------------------------------------------------------------

  datatype Page = CoreTagSearchPage | CoreTagIndexAreaPage | CoreTagIndexPage

  /** The page parameters passed to goInSite: the empty object, or the decoded record. */
  datatype PageArgs = NoArgs | Args(record: PageParams)

  /** One goInSite call: the page to open, its parameters and the site to open it in. */
  datatype Navigation = GoInSite(page: Page, args: PageArgs, siteId: string)

  /** The action getActions returns: a closure over the URL's parameters. */
  datatype Action = Action(params: map<string, string>)

  /** Runs an action for the chosen site: exactly one navigation. */
  function RunAction(action: Action, siteId: string): (nav: Navigation)
    ensures nav.siteId == siteId
    ensures nav.page == CoreTagSearchPage <==> nav.args == NoArgs
    ensures nav.args.Args? ==> nav.args.record == DecodeParams(action.params)
  {
    var p := DecodeParams(action.params);
    if p.tagId == 0 && (p.tagName == "" || p.collectionId == 0) then
      GoInSite(CoreTagSearchPage, NoArgs, siteId)
    else if p.areaId != 0 then
      GoInSite(CoreTagIndexAreaPage, Args(p), siteId)
    else
      GoInSite(CoreTagIndexPage, Args(p), siteId)
  }

  /** The URL names neither a tag id nor both a tag name and a collection. */
  ghost predicate IsSearch(params: map<string, string>) {
    !Carries(params, Id) && (("tag" !in params || params["tag"] == "") || !Carries(params, Tc))
  }

  /** The tag search page opens exactly when the URL names neither a tag nor a tag name with its collection. */
  lemma RoutesToSearchIff(params: map<string, string>, siteId: string)
    ensures RunAction(Action(params), siteId).page == CoreTagSearchPage <==> IsSearch(params)
  {
    NumericFieldNonZeroIff(params, Id);
    NumericFieldNonZeroIff(params, Tc);
  }

  /** Outside the search case, a non-zero area opens the area page with the whole record. */
  lemma RoutesToAreaIff(params: map<string, string>, siteId: string)
    ensures RunAction(Action(params), siteId).page == CoreTagIndexAreaPage <==>
      !IsSearch(params) && Carries(params, Ta)
    ensures RunAction(Action(params), siteId).page == CoreTagIndexAreaPage ==>
      RunAction(Action(params), siteId).args == Args(DecodeParams(params))
  {
    RoutesToSearchIff(params, siteId);
    NumericFieldNonZeroIff(params, Ta);
  }

  /** Otherwise the general index page opens with the whole record. */
  lemma RoutesToIndexIff(params: map<string, string>, siteId: string)
    ensures RunAction(Action(params), siteId).page == CoreTagIndexPage <==>
      !IsSearch(params) && !Carries(params, Ta)
    ensures RunAction(Action(params), siteId).page == CoreTagIndexPage ==>
      RunAction(Action(params), siteId).args == Args(DecodeParams(params))
  {
    RoutesToSearchIff(params, siteId);
    NumericFieldNonZeroIff(params, Ta);
  }

  /** A tag name with a non-zero collection avoids the search page even when no id is given. */
  lemma TagNameAndCollectionAvoidSearch(params: map<string, string>, siteId: string)
    requires "tag" in params && params["tag"] != ""
    requires Carries(params, Tc)
    ensures RunAction(Action(params), siteId).page != CoreTagSearchPage
    ensures RunAction(Action(params), siteId).args.Args?
  {
    RoutesToSearchIff(params, siteId);
  }

  // ---------------------------------------------------------------------------
  // The handler's entry points
  // ---------------------------------------------------------------------------

  /**
   * getActions: one action, whatever the sites, URL, course and extra data;
   * only the parameters reach the action.
   */
  function GetActions<D>(siteIds: seq<string>, url: string, params: map<string, string>,
                         courseId: Option<int>, data: D): (actions: seq<Action>)
    ensures |actions| == 1
    ensures actions[0].params == params
  {
    [Action(params)]
  }

  lemma GetActionsIgnoresContext<D>(siteIds: seq<string>, url: string, courseId: Option<int>, data: D,
                                    siteIds': seq<string>, url': string, courseId': Option<int>, data': D,
                                    params: map<string, string>, siteId: string)
    ensures RunAction(GetActions(siteIds, url, params, courseId, data)[0], siteId)
         == RunAction(GetActions(siteIds', url', params, courseId', data')[0], siteId)
  {
  }

  /** isEnabled: the site's tag availability, as the tag provider reports it, whatever the URL. */
  function IsEnabled(areTagsAvailable: string -> bool, siteId: string, url: string,
                     params: map<string, string>, courseId: Option<int>): (enabled: bool)
    ensures enabled == areTagsAvailable(siteId)
  {
    areTagsAvailable(siteId)
  }

  // ---------------------------------------------------------------------------
  // Worked cases
  // ---------------------------------------------------------------------------

  /** rec=0 is falsy, so recursive falls back to 1. */
  lemma RecZeroIsOne(params: map<string, string>)
    requires "rec" in params && params["rec"] == "0"
    ensures DecodeParams(params).recursive == 1
  {
    LoneLeadingZero("0");
    NumericFieldDefault(params, Rec);
  }

  /** id=5abc reads the numeral 5 and stops at the letter. */
  lemma TrailingTextIgnored(params: map<string, string>)
    requires "id" in params && params["id"] == "5abc"
    ensures DecodeParams(params).tagId == 5
  {
    assert PrefixSplit("5abc", "", "", "5", "abc");
    NumericFieldFromPrefix(params, Id, "", "", "5", "abc");
  }

  /** id=0x10 reads only the numeral 0 (radix 10 has no hexadecimal prefix), so tagId is 0. */
  lemma HexPrefixIsZero(params: map<string, string>)
    requires "id" in params && params["id"] == "0x10"
    ensures DecodeParams(params).tagId == 0
  {
    assert "0x10"[0] == '0' && "0x10"[1] == 'x';
    LoneLeadingZero("0x10");
    NumericFieldDefault(params, Id);
  }

  /** {id: String(n)} with n non-zero ({id: "5"}) opens the general index with tagId n, every other field at its default. */
  lemma IdOnlyOpensIndexPage(params: map<string, string>, siteId: string, n: int)
    requires n != 0 && "id" in params && params["id"] == NumberToString(n)
    requires "tag" !in params && "tc" !in params && "ta" !in params && "from" !in params && "ctx" !in params && "rec" !in params
    ensures RunAction(Action(params), siteId)
         == GoInSite(CoreTagIndexPage, Args(PageParams(n, "", 0, 0, 0, 0, 1)), siteId)
  {
    var p := DecodeParams(params);
    assert p.tagId == n by {
      NumericFieldOfNumber(params, Id, n);
    }
    assert p.collectionId == 0 && p.areaId == 0 && p.fromContextId == 0 && p.contextId == 0 && p.recursive == 1 by {
      assert Tc.Name() !in params && Ta.Name() !in params && From.Name() !in params && Ctx.Name() !in params && Rec.Name() !in params;
      AbsentFieldIsDefault(params, Tc);
      AbsentFieldIsDefault(params, Ta);
      AbsentFieldIsDefault(params, From);
      AbsentFieldIsDefault(params, Ctx);
      AbsentFieldIsDefault(params, Rec);
    }
  }

  /**
   * {tag: name, tc: String(c)} with a non-empty name and c non-zero ({tag: "php", tc: "2"})
   * opens the general index with tagId 0, that tag name and collection c.
   */
  lemma TagNameWithCollection(params: map<string, string>, siteId: string, name: string, c: int)
    requires name != "" && c != 0
    requires "tag" in params && params["tag"] == name && "tc" in params && params["tc"] == NumberToString(c)
    requires "id" !in params && "ta" !in params && "from" !in params && "ctx" !in params && "rec" !in params
    ensures RunAction(Action(params), siteId)
         == GoInSite(CoreTagIndexPage, Args(PageParams(0, name, c, 0, 0, 0, 1)), siteId)
  {
    var p := DecodeParams(params);
    assert p.collectionId == c by {
      NumericFieldOfNumber(params, Tc, c);
    }
    assert p.tagId == 0 && p.areaId == 0 && p.fromContextId == 0 && p.contextId == 0 && p.recursive == 1 by {
      assert Id.Name() !in params && Ta.Name() !in params && From.Name() !in params && Ctx.Name() !in params && Rec.Name() !in params;
      AbsentFieldIsDefault(params, Id);
      AbsentFieldIsDefault(params, Ta);
      AbsentFieldIsDefault(params, From);
      AbsentFieldIsDefault(params, Ctx);
      AbsentFieldIsDefault(params, Rec);
    }
  }

  /** {id: "0", tag: "", tc: "0"} opens the tag search page with no parameters. */
  lemma ZeroIdEmptyTagSearches(params: map<string, string>, siteId: string)
    requires "id" in params && params["id"] == "0" && "tag" in params && params["tag"] == "" && "tc" in params && params["tc"] == "0"
    ensures RunAction(Action(params), siteId) == GoInSite(CoreTagSearchPage, NoArgs, siteId)
  {
    assert DecodeParams(params).tagId == 0 by {
      LoneLeadingZero("0");
      NumericFieldDefault(params, Id);
    }
  }

  /** {id: String(i), ta: String(a)} with i and a non-zero ({id: "5", ta: "7"}) opens the area page with tagId i and areaId a. */
  lemma IdWithAreaOpensAreaPage(params: map<string, string>, siteId: string, i: int, a: int)
    requires i != 0 && a != 0
    requires "id" in params && params["id"] == NumberToString(i) && "ta" in params && params["ta"] == NumberToString(a)
    requires "tag" !in params && "tc" !in params && "from" !in params && "ctx" !in params && "rec" !in params
    ensures RunAction(Action(params), siteId)
         == GoInSite(CoreTagIndexAreaPage, Args(PageParams(i, "", 0, a, 0, 0, 1)), siteId)
  {
    var p := DecodeParams(params);
    assert p.tagId == i by {
      NumericFieldOfNumber(params, Id, i);
    }
    assert p.areaId == a by {
      NumericFieldOfNumber(params, Ta, a);
    }
    assert p.collectionId == 0 && p.fromContextId == 0 && p.contextId == 0 && p.recursive == 1 by {
      assert Tc.Name() !in params && From.Name() !in params && Ctx.Name() !in params && Rec.Name() !in params;
      AbsentFieldIsDefault(params, Tc);
      AbsentFieldIsDefault(params, From);
      AbsentFieldIsDefault(params, Ctx);
      AbsentFieldIsDefault(params, Rec);
    }
  }
}
