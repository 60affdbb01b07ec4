/**
  Python `extract_product_details(driver)`: fills a dict of seventeen fixed keys from
  the product page, each field by a chain of fallbacks. The page is a value: for every
  selector the code queries it holds the element found, or none, and the page source
  is `None` when reading it raises.
*/
module PyExtract {

  import opened Wrappers
  import opened Text
  import opened Labels

  /** A located element: its visible text, its innerHTML and its src attribute. */
  datatype Element = Element(text: string, innerHtml: string, src: string)

  /** A `tr` of a key-value table: its `th` and `td` cells, each possibly missing. */
  datatype TableRow = TableRow(th: Option<string>, td: Option<string>)

  /** What the page answers to the queries of `extract_product_details`. */
  datatype Page = Page(
    url: string,
    productTitle: Option<Element>,
    titleElement: Option<Element>,
    offscreenPrice: Option<Element>,
    priceWhole: seq<Element>,
    landingImage: Option<Element>,
    productDescription: Option<Element>,
    featureBullets: seq<Element>,
    keyValueTables: seq<seq<TableRow>>,
    source: Option<string>)

  /**
    The product dict. Every dict `extract_product_details` returns holds exactly the
    same seventeen keys ("title" … "generic_name", never "error"), so it is a record
    with one field per key, in the order of the dict literal.
  */
  datatype Info = Info(
    title: string,
    description: string,
    image: string,
    url: string,
    price: string,
    composition: string,
    discontinued: string,
    unspscCode: string,
    dimensions: string,
    weight: string,
    manufacturer: string,
    asin: string,
    modelNumber: string,
    countryOfOrigin: string,
    dateFirstAvailable: string,
    includedComponents: string,
    genericName: string)
  {
    /** The key a detail label writes. */
    function Get(f: Field): string {
      match f
      case Asin => asin
      case Manufacturer => manufacturer
      case CountryOfOrigin => countryOfOrigin
      case DateFirstAvailable => dateFirstAvailable
      case ModelNumber => modelNumber
      case Weight => weight
      case Dimensions => dimensions
      case IncludedComponents => includedComponents
      case GenericName => genericName
      case Composition => composition
    }

    /** `product_info[key] = value` for the key of `f`. */
    function With(f: Field, v: string): Info {
      match f
      case Asin => this.(asin := v)
      case Manufacturer => this.(manufacturer := v)
      case CountryOfOrigin => this.(countryOfOrigin := v)
      case DateFirstAvailable => this.(dateFirstAvailable := v)
      case ModelNumber => this.(modelNumber := v)
      case Weight => this.(weight := v)
      case Dimensions => this.(dimensions := v)
      case IncludedComponents => this.(includedComponents := v)
      case GenericName => this.(genericName := v)
      case Composition => this.(composition := v)
    }
  }

  /** `With` writes exactly the key of its label: every other key keeps its value. */
  lemma WithSpec(info: Info, f: Field, v: string)
    ensures info.With(f, v).Get(f) == v
    ensures forall g: Field :: g != f ==> info.With(f, v).Get(g) == info.Get(g)
    ensures SameOutsideDetails(info.With(f, v), info)
  {
  }

  /** Two dicts agree on every key no detail label can write. */
  predicate SameOutsideDetails(a: Info, b: Info) {
    a.title == b.title && a.description == b.description && a.image == b.image
    && a.url == b.url && a.price == b.price && a.discontinued == b.discontinued
    && a.unspscCode == b.unspscCode
  }

  /** The dict before any field is looked for: every key empty except the page URL. */
  function Initial(url: string): Info {
    Info("", "", "", url, "", "", "", "", "", "", "", "", "", "", "", "", "")
  }

  /** `#productTitle`, falling back to `#title` when its text is blank; "NA" when either lookup finds nothing. */
  function TitleOf(page: Page): string {
    match page.productTitle
    case None => "NA"
    case Some(e) =>
      if Strip(e.text) != "" then Strip(e.text)
      else match page.titleElement
        case None => "NA"
        case Some(t) => Strip(t.text)
  }

  /**
    The price: the offscreen price's innerHTML, else the text of the FIRST `a-price-whole`
    element with "\n." removed. With no such element the `[0]` raises IndexError, which
    the `except NoSuchElementException` does not catch: `None` here.
  */
  function PriceOf(page: Page): Option<string> {
    match page.offscreenPrice
    case Some(e) => Some(Strip(e.innerHtml))
    case None =>
      if page.priceWhole == [] then None
      else Some(RemoveAll(Strip(page.priceWhole[0].text), "\n."))
  }

  function ImageOf(page: Page): string {
    match page.landingImage
    case Some(e) => e.src
    case None => "NA"
  }

  /** The texts of some elements, in order. */
  function Texts(es: seq<Element>): (r: seq<string>)
    ensures |r| == |es|
    ensures forall i :: 0 <= i < |es| ==> r[i] == es[i].text
  {
    seq(|es|, i requires 0 <= i < |es| => es[i].text)
  }

  /** `#productDescription`, else the feature bullets joined by newlines, else "NA". */
  function DescriptionOf(page: Page): string {
    match page.productDescription
    case Some(e) => Strip(e.text)
    case None =>
      if page.featureBullets == [] then "NA"
      else Join(Texts(page.featureBullets), '\n')
  }

  const Unavailable := "currently unavailable"
  const NotBackInStock := "we don't know when or if this item will be back in stock"

  /** "Yes" when the lower-cased source holds either phrase, "No" otherwise, "NA" when reading it raises. */
  function DiscontinuedOf(page: Page): string {
    match page.source
    case None => "NA"
    case Some(src) =>
      if Contains(ToLower(src), Unavailable) || Contains(ToLower(src), NotBackInStock) then "Yes" else "No"
  }

  /** One table row: skipped when a cell is missing, otherwise its classified key (if any) set to the trimmed td. */
  function ApplyRow(info: Info, row: TableRow): Info {
    if row.th.None? || row.td.None? then info
    else match ClassifyPy(ToLower(Strip(row.th.value)))
      case None => info
      case Some(f) => info.With(f, Strip(row.td.value))
  }

  function ApplyRows(info: Info, rows: seq<TableRow>): Info {
    if rows == [] then info else ApplyRow(ApplyRows(info, rows[..|rows| - 1]), rows[|rows| - 1])
  }

  function ApplyTables(info: Info, tables: seq<seq<TableRow>>): Info {
    if tables == [] then info else ApplyRows(ApplyTables(info, tables[..|tables| - 1]), tables[|tables| - 1])
  }

  /** Title, price, image and description filled in; `price` is the one that may raise. */
  function Fields(page: Page, price: string): Info {
    Initial(page.url).(title := TitleOf(page), price := price, image := ImageOf(page),
                       description := DescriptionOf(page))
  }

  /** The whole extraction: the dict, or the message of the IndexError it raises. */
  function Extract(page: Page): Result<Info> {
    match PriceOf(page)
    case None => Failure("list index out of range")
    case Some(price) =>
      Success(ApplyTables(Fields(page, price), page.keyValueTables).(discontinued := DiscontinuedOf(page)))
  }

  /** `extract_product_details(driver)`, step by step in source order. */
  method ExtractProductDetails(page: Page) returns (r: Result<Info>)
    ensures r == Extract(page)
  {
    var info := Initial(page.url);
    var title: string;
    if page.productTitle.None? {
      title := "NA";
    } else {
      title := Strip(page.productTitle.value.text);
      if title == "" {
        if page.titleElement.None? {
          title := "NA";
        } else {
          title := Strip(page.titleElement.value.text);
        }
      }
    }
    assert title == TitleOf(page);
    info := info.(title := title);
    var price: string;
    if page.offscreenPrice.Some? {
      price := Strip(page.offscreenPrice.value.innerHtml);
    } else {
      if |page.priceWhole| == 0 {
        return Failure("list index out of range");
      }
      price := RemoveAll(Strip(page.priceWhole[0].text), "\n.");
    }
    assert Some(price) == PriceOf(page);
    info := info.(price := price);
    var image := if page.landingImage.Some? then page.landingImage.value.src else "NA";
    info := info.(image := image);
    var description: string;
    if page.productDescription.Some? {
      description := Strip(page.productDescription.value.text);
    } else if page.featureBullets == [] {
      description := "NA";
    } else {
      description := Join(Texts(page.featureBullets), '\n');
    }
    assert description == DescriptionOf(page);
    info := info.(description := description);
    assert info == Fields(page, price);
    info := ReadTables(info, page.keyValueTables);
    var discontinued: string;
    if page.source.None? {
      discontinued := "NA";
    } else {
      var lower := ToLower(page.source.value);
      if Contains(lower, Unavailable) || Contains(lower, NotBackInStock) {
        discontinued := "Yes";
      } else {
        discontinued := "No";
      }
    }
    assert discontinued == DiscontinuedOf(page);
    info := info.(discontinued := discontinued);
    r := Success(info);
  }

  /** The technical-details block: every row of every key-value table, in page order. */
  method ReadTables(info0: Info, tables: seq<seq<TableRow>>) returns (info: Info)
    ensures info == ApplyTables(info0, tables)
  {
    info := info0;
    for s := 0 to |tables|
      invariant info == ApplyTables(info0, tables[..s])
    {
      assert tables[..s + 1][..s] == tables[..s];
      var rows := tables[s];
      ghost var before := info;
      for j := 0 to |rows|
        invariant info == ApplyRows(before, rows[..j])
      {
        assert rows[..j + 1][..j] == rows[..j];
        var row := rows[j];
        if row.th.Some? && row.td.Some? {
          var key := ToLower(Strip(row.th.value));
          var value := Strip(row.td.value);
          var field := ClassifyPy(key);
          if field.Some? {
            info := info.With(field.value, value);
          }
        }
      }
      assert rows[..|rows|] == rows;
    }
    assert tables[..|tables|] == tables;
  }

  /** Table rows write detail keys only. */
  lemma {:induction false} ApplyRowsFrame(info: Info, rows: seq<TableRow>)
    ensures SameOutsideDetails(ApplyRows(info, rows), info)
  {
    if rows != [] {
      var prev := ApplyRows(info, rows[..|rows| - 1]);
      ApplyRowsFrame(info, rows[..|rows| - 1]);
      var last := rows[|rows| - 1];
      if last.th.Some? && last.td.Some? && ClassifyPy(ToLower(Strip(last.th.value))).Some? {
        WithSpec(prev, ClassifyPy(ToLower(Strip(last.th.value))).value, Strip(last.td.value));
      }
    }
  }

  lemma {:induction false} ApplyTablesFrame(info: Info, tables: seq<seq<TableRow>>)
    ensures SameOutsideDetails(ApplyTables(info, tables), info)
  {
    if tables != [] {
      var prev := ApplyTables(info, tables[..|tables| - 1]);
      ApplyTablesFrame(info, tables[..|tables| - 1]);
      ApplyRowsFrame(prev, tables[|tables| - 1]);
    }
  }

  /**
    A successful extraction carries the fallback chains' values for title, price, image,
    description and discontinued, the page URL, and an empty UNSPSC code (the Python
    code never fills it in). It fails exactly when there is neither an offscreen price
    nor any `a-price-whole` element.
  */
  lemma ExtractFields(page: Page)
    ensures Extract(page).Failure? <==> page.offscreenPrice.None? && page.priceWhole == []
    ensures Extract(page).Success? ==>
              var info := Extract(page).value;
              info.title == TitleOf(page) && info.price == PriceOf(page).value
              && info.image == ImageOf(page) && info.description == DescriptionOf(page)
              && info.url == page.url && info.discontinued == DiscontinuedOf(page)
              && info.unspscCode == ""
  {
    if PriceOf(page).Some? {
      ApplyTablesFrame(Fields(page, PriceOf(page).value), page.keyValueTables);
    }
  }

  /** `#title` is consulted only when `#productTitle` exists with blank text. */
  lemma TitleFallbackOnlyWhenBlank(page: Page, other: Option<Element>)
    requires page.productTitle.None? || Strip(page.productTitle.value.text) != ""
    ensures TitleOf(page.(titleElement := other)) == TitleOf(page)
    ensures page.productTitle.None? ==> TitleOf(page) == "NA"
    ensures page.productTitle.Some? ==> TitleOf(page) == Strip(page.productTitle.value.text)
  {
  }

  /** "Yes" exactly when the source is readable and holds one of the two phrases; "NA" exactly when it is not readable. */
  lemma DiscontinuedCases(page: Page)
    ensures DiscontinuedOf(page) == "Yes" <==>
              page.source.Some? && (Contains(ToLower(page.source.value), Unavailable)
                                    || Contains(ToLower(page.source.value), NotBackInStock))
    ensures DiscontinuedOf(page) == "NA" <==> page.source.None?
  {
  }

  /** The rows of a table that have both cells. */
  function Complete(rows: seq<TableRow>): (r: seq<TableRow>)
    ensures forall i :: 0 <= i < |r| ==> r[i].th.Some? && r[i].td.Some?
  {
    if rows == [] then []
    else Complete(rows[..|rows| - 1])
         + (var last := rows[|rows| - 1]; if last.th.Some? && last.td.Some? then [last] else [])
  }

  /**
    `Complete` is the filter of complete rows: it keeps a single row exactly when both
    cells are present, and it distributes over concatenation, so the rows it keeps are
    all the complete ones, in their order.
  */
  lemma CompleteIsFilter(a: seq<TableRow>, b: seq<TableRow>)
    ensures Complete(a + b) == Complete(a) + Complete(b)
    ensures forall x: TableRow :: Complete([x]) == if x.th.Some? && x.td.Some? then [x] else []
    ensures multiset(Complete(a)) <= multiset(a)
  {
    CompleteAppend(a, b);
    CompleteSubMultiset(a);
    forall x: TableRow ensures Complete([x]) == if x.th.Some? && x.td.Some? then [x] else [] {
      assert [x][..0] == [];
    }
  }

  lemma {:induction false} CompleteAppend(a: seq<TableRow>, b: seq<TableRow>)
    ensures Complete(a + b) == Complete(a) + Complete(b)
    decreases |b|
  {
    if b == [] {
      assert a + b == a;
    } else {
      var b' := b[..|b| - 1];
      var last := b[|b| - 1];
      var tail := if last.th.Some? && last.td.Some? then [last] else [];
      assert (a + b)[..|a + b| - 1] == a + b';
      assert (a + b)[|a + b| - 1] == last;
      assert Complete(a + b) == Complete(a + b') + tail;
      assert Complete(b) == Complete(b') + tail;
      CompleteAppend(a, b');
    }
  }

  lemma {:induction false} CompleteSubMultiset(rows: seq<TableRow>)
    ensures multiset(Complete(rows)) <= multiset(rows)
  {
    if rows != [] {
      var init := rows[..|rows| - 1];
      CompleteSubMultiset(init);
      assert rows == init + [rows[|rows| - 1]];
    }
  }

  lemma {:induction false} ApplyRowsAppend(info: Info, a: seq<TableRow>, b: seq<TableRow>)
    ensures ApplyRows(info, a + b) == ApplyRows(ApplyRows(info, a), b)
    decreases |b|
  {
    if b == [] {
      assert a + b == a;
    } else {
      var b' := b[..|b| - 1];
      assert (a + b)[..|a + b| - 1] == a + b';
      ApplyRowsAppend(info, a, b');
    }
  }

  /** A row lacking its th or its td is skipped without affecting the other rows. */
  lemma {:induction false} IncompleteRowsSkipped(info: Info, rows: seq<TableRow>)
    ensures ApplyRows(info, rows) == ApplyRows(info, Complete(rows))
  {
    if rows != [] {
      var init := rows[..|rows| - 1];
      var last := rows[|rows| - 1];
      IncompleteRowsSkipped(info, init);
      if last.th.Some? && last.td.Some? {
        ApplyRowsAppend(info, Complete(init), [last]);
      } else {
        assert Complete(rows) == Complete(init);
      }
    }
  }

  /** A detail key that no complete row classifies into keeps the value it had. */
  lemma {:induction false} ApplyRowsUnmatched(info: Info, rows: seq<TableRow>, f: Field)
    requires forall i :: 0 <= i < |rows| && rows[i].th.Some? && rows[i].td.Some? ==>
               ClassifyPy(ToLower(Strip(rows[i].th.value))) != Some(f)
    ensures ApplyRows(info, rows).Get(f) == info.Get(f)
  {
    if rows != [] {
      var init := rows[..|rows| - 1];
      assert forall i :: 0 <= i < |init| ==> init[i] == rows[i];
      ApplyRowsUnmatched(info, init, f);
      var last := rows[|rows| - 1];
      if last.th.Some? && last.td.Some? && ClassifyPy(ToLower(Strip(last.th.value))).Some? {
        WithSpec(ApplyRows(info, init), ClassifyPy(ToLower(Strip(last.th.value))).value, Strip(last.td.value));
      }
    }
  }

  /** The label of a complete row, as the loop classifies it. */
  function RowField(row: TableRow): Option<Field> {
    if row.th.None? || row.td.None? then None else ClassifyPy(ToLower(Strip(row.th.value)))
  }

  /**
    Later rows overwrite earlier ones: when row `k` is the last row classified into `f`,
    the key of `f` holds that row's trimmed td.
  */
  lemma {:induction false} ApplyRowsLastWins(info: Info, rows: seq<TableRow>, f: Field, k: nat)
    requires k < |rows| && RowField(rows[k]) == Some(f)
    requires forall j :: k < j < |rows| ==> RowField(rows[j]) != Some(f)
    ensures ApplyRows(info, rows).Get(f) == Strip(rows[k].td.value)
  {
    var init := rows[..|rows| - 1];
    var last := rows[|rows| - 1];
    var prev := ApplyRows(info, init);
    if RowField(last).Some? {
      WithSpec(prev, RowField(last).value, Strip(last.td.value));
    }
    if k < |rows| - 1 {
      assert init[k] == rows[k];
      forall j | k < j < |init| ensures RowField(init[j]) != Some(f) {
        assert init[j] == rows[j];
      }
      ApplyRowsLastWins(info, init, f, k);
    }
  }
}
