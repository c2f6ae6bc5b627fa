/** The course-edit page of a teacher: every edit builds a new course record from
    the previous one with an object spread, and the two list fields are edited as
    text with one item per line. */
module EditCourse {
  import opened JsStrings

  /** The price sub-record; `isFree` is derived from the amount when the amount is edited. */
  datatype Price = Price(amount: int, currency: string, isFree: bool)

  /** The fields of a course the page edits. */
  datatype Course = Course(
    title: string,
    shortDescription: string,
    description: string,
    category: string,
    level: string,
    thumbnail: string,
    learningOutcomes: seq<string>,
    requirements: seq<string>,
    price: Price)

  /** The names `handleChange` is called with. */
  datatype Field =
    | Title | ShortDescription | Description | Category | Level | Thumbnail
    | LearningOutcomes | Requirements

  /** A field's value: the text inputs give strings, the list text areas give arrays. */
  datatype Value = Text(text: string) | Items(items: seq<string>)

  /** The list fields hold arrays, every other field holds a string. */
  predicate IsListField(f: Field) {
    f == LearningOutcomes || f == Requirements
  }

  /** The form only ever passes a value of the field's own kind. */
  predicate Fits(f: Field, v: Value) {
    IsListField(f) <==> v.Items?
  }

  /** The value stored under a field name. */
  function Get(c: Course, f: Field): (v: Value)
    ensures Fits(f, v)
  {
    match f
    case Title => Text(c.title)
    case ShortDescription => Text(c.shortDescription)
    case Description => Text(c.description)
    case Category => Text(c.category)
    case Level => Text(c.level)
    case Thumbnail => Text(c.thumbnail)
    case LearningOutcomes => Items(c.learningOutcomes)
    case Requirements => Items(c.requirements)
  }

  /** `handleChange(field, value)`: `{...prev, [field]: value}`. The named field
      takes the new value and every other field, the price included, is kept. */
  function HandleChange(c: Course, f: Field, v: Value): (r: Course)
    requires Fits(f, v)
    ensures Get(r, f) == v
    ensures forall g :: g != f ==> Get(r, g) == Get(c, g)
    ensures r.price == c.price
  {
    match f
    case Title => c.(title := v.text)
    case ShortDescription => c.(shortDescription := v.text)
    case Description => c.(description := v.text)
    case Category => c.(category := v.text)
    case Level => c.(level := v.text)
    case Thumbnail => c.(thumbnail := v.text)
    case LearningOutcomes => c.(learningOutcomes := v.items)
    case Requirements => c.(requirements := v.items)
  }

  /** The two price inputs: the amount (already passed through `parseInt`) and the currency. */
  datatype PriceEdit = Amount(amount: int) | Currency(currency: string)

  /** `handlePriceChange(field, value)`: the price sub-record is rebuilt with the
      edited entry; `isFree` becomes `amount == 0` when the amount is edited and
      is kept when the currency is edited. No other course field changes. */
  function HandlePriceChange(c: Course, e: PriceEdit): (r: Course)
    ensures e.Amount? ==> r.price == Price(e.amount, c.price.currency, e.amount == 0)
    ensures e.Currency? ==> r.price == Price(c.price.amount, e.currency, c.price.isFree)
    ensures forall g :: Get(r, g) == Get(c, g)
  {
    match e
    case Amount(n) => c.(price := c.price.(amount := n, isFree := n == 0))
    case Currency(code) => c.(price := c.price.(currency := code))
  }

  /** No item is blank. */
  predicate NoBlankItem(items: seq<string>) {
    forall i :: 0 <= i < |items| ==> !IsBlank(items[i])
  }

  /** No item spans two lines. */
  predicate SingleLineItems(items: seq<string>) {
    forall i :: 0 <= i < |items| ==> '\n' !in items[i]
  }

  /** The filter callback `item => item.trim()`: an item is kept when its trim is not empty. */
  predicate Keep(item: string)
    ensures Keep(item) <==> !IsBlank(item)
  {
    Trim(item) != ""
  }

  /** `filter(item => item.trim())`: keeps, in order, the items that are not blank. */
  function NonBlank(items: seq<string>): seq<string> {
    if items == [] then []
    else if Keep(items[0]) then [items[0]] + NonBlank(items[1..])
    else NonBlank(items[1..])
  }

  /** The filtered list is no longer than the input and has no blank item; it
      keeps single-line items single-line; a list without blank items passes
      through unchanged. */
  lemma {:induction false} NonBlankShape(items: seq<string>)
    ensures |NonBlank(items)| <= |items|
    ensures NoBlankItem(NonBlank(items))
    ensures SingleLineItems(items) ==> SingleLineItems(NonBlank(items))
    ensures NoBlankItem(items) ==> NonBlank(items) == items
  {
    if items != [] {
      var rest := NonBlank(items[1..]);
      NonBlankShape(items[1..]);
      ConsFacts(items);
      if Keep(items[0]) {
        ConsFacts([items[0]] + rest);
      }
    }
  }

  /** A list is its head followed by its tail, for both item predicates. */
  lemma ConsFacts(items: seq<string>)
    requires items != []
    ensures items == [items[0]] + items[1..]
    ensures NoBlankItem(items) <==> !IsBlank(items[0]) && NoBlankItem(items[1..])
    ensures SingleLineItems(items) <==> '\n' !in items[0] && SingleLineItems(items[1..])
  {
    assert forall i :: 0 < i < |items| ==> items[i] == items[1..][i - 1];
  }

  /** Filtering a concatenation filters each part: the kept items keep their
      order and their number. */
  lemma {:induction false} NonBlankAppend(a: seq<string>, b: seq<string>)
    ensures NonBlank(a + b) == NonBlank(a) + NonBlank(b)
  {
    if a == [] {
      assert a + b == b;
    } else {
      var x, a' := a[0], a[1..];
      assert a + b == [x] + (a' + b) && a == [x] + a';
      NonBlankAppend(a', b);
      NonBlankCons(x, a' + b);
      NonBlankCons(x, a');
      if Keep(x) {
        assert [x] + (NonBlank(a') + NonBlank(b)) == ([x] + NonBlank(a')) + NonBlank(b);
      }
    }
  }

  /** Filtering a list with a given head: the head is kept when it is not blank. */
  lemma NonBlankCons(x: string, rest: seq<string>)
    ensures NonBlank([x] + rest) == if Keep(x) then [x] + NonBlank(rest) else NonBlank(rest)
  {
    assert ([x] + rest)[1..] == rest;
  }

  /** The filter keeps exactly the non-blank items: nothing blank comes out and
      nothing non-blank is lost. */
  lemma {:induction false} NonBlankMembers(items: seq<string>)
    ensures forall x :: x in NonBlank(items) <==> x in items && !IsBlank(x)
  {
    if items != [] {
      NonBlankMembers(items[1..]);
      assert items == [items[0]] + items[1..];
      assert forall x :: x in items <==> x == items[0] || x in items[1..];
    }
  }

  /** The text shown in a list's text area: `items.join('\n')`, one line per
      item when the items are single-line. */
  function ListText(items: seq<string>): (r: string)
    ensures items != [] && SingleLineItems(items) ==> Split(r, '\n') == items
  {
    JoinedLines(items);
    Join(items, '\n')
  }

  lemma JoinedLines(items: seq<string>)
    ensures items != [] && SingleLineItems(items) ==> Split(Join(items, '\n'), '\n') == items
  {
    if items != [] && SingleLineItems(items) {
      SplitJoin(items, '\n');
    }
  }

  /** The list stored when the text area changes: `text.split('\n').filter(item => item.trim())`.
      The result never holds a blank item or one that spans two lines. */
  function ParseList(text: string): (r: seq<string>)
    ensures NoBlankItem(r) && SingleLineItems(r)
    ensures forall x :: x in r <==> x in Split(text, '\n') && !IsBlank(x)
  {
    NonBlankShape(Split(text, '\n'));
    NonBlankMembers(Split(text, '\n'));
    NonBlank(Split(text, '\n'))
  }

  /** A list the page can show and read back unchanged: single-line, non-blank items. */
  predicate ListItemsOk(items: seq<string>) {
    SingleLineItems(items) && NoBlankItem(items)
  }

  /** Showing a list and reading the shown text back gives the same list. */
  lemma ListRoundTrip(items: seq<string>)
    requires ListItemsOk(items)
    ensures ParseList(ListText(items)) == items
  {
    if items == [] {
      assert Split("", '\n') == [""];
      assert IsBlank("") && !Keep("");
      assert NonBlank([""]) == NonBlank([]);
    } else {
      assert Split(ListText(items), '\n') == items;
      NonBlankShape(items);
    }
  }

  /** Reading text back is a normalisation: the text the page shows after an edit
      reads back as the same list, so re-rendering never changes a stored list. */
  lemma ParseListIdempotent(text: string)
    ensures ParseList(ListText(ParseList(text))) == ParseList(text)
  {
    ListRoundTrip(ParseList(text));
  }

  /** Editing the learning outcomes through their text area. */
  function EditLearningOutcomes(c: Course, text: string): (r: Course)
    ensures r.learningOutcomes == ParseList(text)
    ensures forall g :: g != LearningOutcomes ==> Get(r, g) == Get(c, g)
    ensures r.price == c.price
  {
    HandleChange(c, LearningOutcomes, Items(ParseList(text)))
  }

  /** Editing the requirements through their text area. */
  function EditRequirements(c: Course, text: string): (r: Course)
    ensures r.requirements == ParseList(text)
    ensures forall g :: g != Requirements ==> Get(r, g) == Get(c, g)
    ensures r.price == c.price
  {
    HandleChange(c, Requirements, Items(ParseList(text)))
  }

  /** A line break typed at the end of a list text area is dropped: the text
      reads as the same list without it. */
  lemma ParseListTrailingNewline(text: string)
    ensures ParseList(text + "\n") == ParseList(text)
  {
    SplitTrailingSeparator(text, '\n');
    NonBlankAppend(Split(text, '\n'), [""]);
    assert IsBlank("") && !Keep("");
    assert NonBlank([""]) == NonBlank([]);
    assert ParseList(text) + [] == ParseList(text);
  }
}
