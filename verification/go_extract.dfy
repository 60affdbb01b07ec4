/**
  The Go back end's product record and its detail-text parser (`extractProductDetails`),
  plus the step that turns the values one successful browser run collected into a record.
*/
module GoExtract {

  import opened Wrappers
  import opened Text
  import opened Labels

  /** Go's `ProductInfo` struct: every field a string, the zero value all empty. */
  datatype ProductInfo = ProductInfo(
    Title: string,
    Description: string,
    Image: string,
    URL: string,
    Price: string,
    Composition: string,
    Discontinued: string,
    UnspscCode: string,
    Dimensions: string,
    Weight: string,
    Manufacturer: string,
    ASIN: string,
    ModelNumber: string,
    CountryOfOrigin: string,
    DateFirstAvailable: string,
    IncludedComponents: string,
    GenericName: string,
    ProductDetails: string,
    Error: string)
  {
    /** The struct field a detail label writes. */
    function Get(f: Field): string {
      match f
      case Asin => ASIN
      case Manufacturer => Manufacturer
      case CountryOfOrigin => CountryOfOrigin
      case DateFirstAvailable => DateFirstAvailable
      case ModelNumber => ModelNumber
      case Weight => Weight
      case Dimensions => Dimensions
      case IncludedComponents => IncludedComponents
      case GenericName => GenericName
      case Composition => Composition
    }

    /** Assigns the struct field of `f`. */
    function With(f: Field, v: string): ProductInfo {
      match f
      case Asin => this.(ASIN := v)
      case Manufacturer => this.(Manufacturer := v)
      case CountryOfOrigin => this.(CountryOfOrigin := v)
      case DateFirstAvailable => this.(DateFirstAvailable := v)
      case ModelNumber => this.(ModelNumber := v)
      case Weight => this.(Weight := v)
      case Dimensions => this.(Dimensions := v)
      case IncludedComponents => this.(IncludedComponents := v)
      case GenericName => this.(GenericName := v)
      case Composition => this.(Composition := v)
    }
  }

  /** `ProductInfo{}`. */
  const Zero := ProductInfo("", "", "", "", "", "", "", "", "", "", "", "", "", "", "", "", "", "", "")

  /** `With` writes exactly its field: every other field, detail or not, keeps its value. */
  lemma WithSpec(info: ProductInfo, f: Field, v: string)
    ensures info.With(f, v).Get(f) == v
    ensures forall g: Field :: g != f ==> info.With(f, v).Get(g) == info.Get(g)
    ensures SameOutsideDetails(info.With(f, v), info)
  {
  }

  /** Two records agree on every field no detail label can write. */
  predicate SameOutsideDetails(a: ProductInfo, b: ProductInfo) {
    a.Title == b.Title && a.Description == b.Description && a.Image == b.Image
    && a.URL == b.URL && a.Price == b.Price && a.Discontinued == b.Discontinued
    && a.UnspscCode == b.UnspscCode && a.ProductDetails == b.ProductDetails && a.Error == b.Error
  }

  /**
    The field a detail line sets: none without a `:`, otherwise the classification of the
    lower-cased, trimmed text before the first `:`.
  */
  function LineField(line: string): Option<Field> {
    match CutColon(line)
    case None => None
    case Some(parts) => Classify(ToLower(Trim(parts.0)))
  }

  /** The value a detail line carries: the trimmed text after its first `:`. */
  function LineValue(line: string): string {
    match CutColon(line)
    case None => ""
    case Some(parts) => Trim(parts.1)
  }

  /** The effect of one line of the loop in `extractProductDetails`. */
  function ApplyLine(info: ProductInfo, line: string): ProductInfo {
    match LineField(line)
    case None => info
    case Some(f) => info.With(f, LineValue(line))
  }

  /** One line sets field `f` to its value when it is classified into `f`, and leaves `f` alone otherwise. */
  lemma ApplyLineEffect(info: ProductInfo, line: string, f: Field)
    ensures ApplyLine(info, line).Get(f) == if LineField(line) == Some(f) then LineValue(line) else info.Get(f)
    ensures SameOutsideDetails(ApplyLine(info, line), info)
  {
    if LineField(line).Some? {
      WithSpec(info, LineField(line).value, LineValue(line));
    }
  }

  /** The effect of the lines in order. */
  function ApplyLines(info: ProductInfo, lines: seq<string>): ProductInfo {
    if lines == [] then info
    else ApplyLine(ApplyLines(info, lines[..|lines| - 1]), lines[|lines| - 1])
  }

  /**
    Go `extractProductDetails(&info, detailText)`: stores the whole text, trimmed, in
    ProductDetails, then walks the lines of the text. The struct is a local of the
    lookup that nothing else aliases, so the write through the pointer is modelled as
    returning the updated struct.
  */
  method ExtractProductDetails(info: ProductInfo, detailText: string) returns (r: ProductInfo)
    ensures r == ApplyLines(info.(ProductDetails := Trim(detailText)), Split(detailText, '\n'))
    ensures r.ProductDetails == Trim(detailText)
  {
    r := info.(ProductDetails := Trim(detailText));
    ghost var start := r;
    var lines := Split(detailText, '\n');
    for i := 0 to |lines|
      invariant r == ApplyLines(start, lines[..i])
    {
      assert lines[..i + 1][..i] == lines[..i];
      var cut := CutColon(lines[i]);
      if cut.Some? {
        var key := ToLower(Trim(cut.value.0));
        var value := Trim(cut.value.1);
        var field := Classify(key);
        if field.Some? {
          r := r.With(field.value, value);
        }
      }
    }
    assert lines[..|lines|] == lines;
    ApplyLinesKeepsOtherFields(start, lines);
  }

  /** The lines never touch a field outside the detail table, ProductDetails included. */
  lemma {:induction false} ApplyLinesKeepsOtherFields(info: ProductInfo, lines: seq<string>)
    ensures SameOutsideDetails(ApplyLines(info, lines), info)
  {
    if lines != [] {
      ApplyLinesKeepsOtherFields(info, lines[..|lines| - 1]);
      ApplyLineEffect(ApplyLines(info, lines[..|lines| - 1]), lines[|lines| - 1], Asin);
    }
  }

  /** A detail field that no line classifies into keeps the value it had. */
  lemma {:induction false} ApplyLinesUnmatched(info: ProductInfo, lines: seq<string>, f: Field)
    requires forall k :: 0 <= k < |lines| ==> LineField(lines[k]) != Some(f)
    ensures ApplyLines(info, lines).Get(f) == info.Get(f)
  {
    if lines != [] {
      var init := lines[..|lines| - 1];
      assert forall k :: 0 <= k < |init| ==> init[k] == lines[k];
      ApplyLinesUnmatched(info, init, f);
      ApplyLineEffect(ApplyLines(info, init), lines[|lines| - 1], f);
    }
  }

  /**
    Later lines overwrite earlier ones: when line `k` is the last line classified into
    `f`, the field holds that line's value.
  */
  lemma {:induction false} ApplyLinesLastWins(info: ProductInfo, lines: seq<string>, f: Field, k: nat)
    requires k < |lines| && LineField(lines[k]) == Some(f)
    requires forall j :: k < j < |lines| ==> LineField(lines[j]) != Some(f)
    ensures ApplyLines(info, lines).Get(f) == LineValue(lines[k])
  {
    var init := lines[..|lines| - 1];
    var last := lines[|lines| - 1];
    var prev := ApplyLines(info, init);
    assert ApplyLines(info, lines) == ApplyLine(prev, last);
    if k < |lines| - 1 {
      assert init[k] == lines[k];
      forall j | k < j < |init| ensures LineField(init[j]) != Some(f) {
        assert init[j] == lines[j];
      }
      ApplyLinesLastWins(info, init, f, k);
      ApplyLineEffect(prev, last, f);
    } else {
      ApplyLineEffect(prev, last, f);
    }
  }

  /**
    A line `label : value` whose label holds no colon sets the field of its lower-cased,
    trimmed label to its trimmed value, later colons in the value kept.
  */
  lemma LabelledLine(name: string, value: string)
    requires ':' !in name
    ensures LineField(name + ":" + value) == Classify(ToLower(Trim(name)))
    ensures LineValue(name + ":" + value) == Trim(value)
  {
    CutColonInverse(name, value);
  }

  /** The raw values one successful browser run collects (Go `chromedp.Run` targets). */
  datatype Collected = Collected(
    title: string,
    price: string,
    imageURL: string,
    description: string,
    detailBullets: string,
    discontinued: bool,
    url: string)

  /** The record built from a successful run, before and after the detail text is parsed. */
  function CollectedBase(c: Collected): ProductInfo {
    Zero.(URL := c.url, Title := Trim(c.title), Price := Trim(c.price), Image := c.imageURL,
          Description := Trim(c.description), Discontinued := if c.discontinued then "Yes" else "No")
  }

  function CollectedInfo(c: Collected): ProductInfo {
    ApplyLines(CollectedBase(c).(ProductDetails := Trim(c.detailBullets)), Split(c.detailBullets, '\n'))
  }

  /** The record of a successful run: trimmed texts, a Yes/No flag, the details parsed, no error. */
  lemma CollectedInfoFields(c: Collected)
    ensures CollectedInfo(c).Title == Trim(c.title) && CollectedInfo(c).Price == Trim(c.price)
    ensures CollectedInfo(c).Image == c.imageURL && CollectedInfo(c).URL == c.url
    ensures CollectedInfo(c).Description == Trim(c.description)
    ensures CollectedInfo(c).Discontinued == (if c.discontinued then "Yes" else "No")
    ensures CollectedInfo(c).ProductDetails == Trim(c.detailBullets)
    ensures CollectedInfo(c).UnspscCode == "" && CollectedInfo(c).Error == ""
  {
    ApplyLinesKeepsOtherFields(CollectedBase(c).(ProductDetails := Trim(c.detailBullets)), Split(c.detailBullets, '\n'));
  }

  /** Lines 296-311 of the Go lookup: fill the record from what the run collected. */
  method FromCollected(c: Collected) returns (info: ProductInfo)
    ensures info == CollectedInfo(c)
  {
    info := Zero.(URL := c.url);
    info := info.(Title := Trim(c.title), Price := Trim(c.price), Image := c.imageURL,
                  Description := Trim(c.description));
    if c.discontinued {
      info := info.(Discontinued := "Yes");
    } else {
      info := info.(Discontinued := "No");
    }
    info := ExtractProductDetails(info, c.detailBullets);
  }
}
