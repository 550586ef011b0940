/** The Money S3 export: a tree of elements whose order the schema fixes. */
module MoneyS3 {
  import opened Digits
  import ForeignTotal
  import opened Money
  import opened Numbers
  import opened Wrappers
  import opened XmlText

  // ---------------------------------------------------------------------- input

  datatype Partner = Partner(company: Text, ico: Option<Text>, dic: Option<Text>, street: Option<Text>,
                             city: Option<Text>, zip: Option<Text>)

  datatype Item = Item(text: Text, quantity: Decimal, unit: Option<Text>, unitPrice: Option<Decimal>,
                       code: Option<Text>, note: Option<Text>)

  /** Dates are given as their ISO texts. */
  datatype Order = Order(number: Text, title: Text, currency: string, orderDate: string, dateTo: Option<string>,
                         note: Option<Text>, partner: Partner, items: seq<Item>)

  predicate Foreign(o: Order) {
    Upper(o.currency) != "CZK"
  }

  function Priced(items: seq<Item>): seq<ForeignTotal.Line> {
    seq(|items|, i requires 0 <= i < |items| => ForeignTotal.Line(items[i].quantity, items[i].unitPrice))
  }

  /** The total of an order abroad, unless its rounding to cents raises. */
  function TotalOf(o: Order): Option<Decimal> {
    var total := ForeignTotal.Total(Priced(o.items));
    if total.Success? then Some(total.value) else None
  }

  /** The cents of a foreign total are below 10^28. At home no total is computed. */
  predicate Exportable(o: Order) {
    Foreign(o) ==> ForeignTotal.InRange(Priced(o.items))
  }

  /** An order read from the database, with fewer than ten thousand items, is always exportable. */
  lemma StoredOrdersAreExportable(o: Order)
    requires |o.items| < Pow10(4)
    requires forall i | 0 <= i < |o.items| :: ForeignTotal.FromColumns(Priced(o.items)[i])
    ensures Exportable(o)
  {
    ForeignTotal.ColumnsNeverRaise(Priced(o.items));
    ForeignTotal.TotalRaisesOutOfRange(Priced(o.items));
  }

  // ----------------------------------------------------------------------- tree

  /** Element names. The schema has a `Valuty` in an order and a plain one, here `ItemValuty`, in an item. */
  datatype Tag =
    | MoneyData | SeznamObjPrij
    | ObjPrij | Popis | Poznamka | Vystaveno | VyriditDo | DodOdb | PrimDoklad | Valuty | Polozka
    | ObchNazev | ObchAdresa | FaktNazev | ICO | DIC | FaktAdresa | Nazev | Adresa
    | Ulice | Misto | PSC
    | Mena | SouhrnDPH | Celkem | Kod
    | PocetMJ | Cena | SazbaDPH | TypCeny | Poradi | ItemValuty | NesklPolozka
    | MJ | Katalog

  datatype Element = Element(tag: Tag, text: Text, children: seq<Element>)

  /** A sequence of child elements, as the schema states it. */
  datatype Slots =
    | End
    | One(tag: Tag, rest: Slots)
    | Maybe(tag: Tag, rest: Slots)
    | Many(tag: Tag, rest: Slots)

  predicate Follows(children: seq<Element>, slots: Slots)
    decreases |children|, slots
  {
    match slots
    case End => children == []
    case One(tag, rest) => children != [] && children[0].tag == tag && Follows(children[1..], rest)
    case Maybe(tag, rest) =>
      Follows(children, rest) || (children != [] && children[0].tag == tag && Follows(children[1..], rest))
    case Many(tag, rest) =>
      Follows(children, rest) || (children != [] && children[0].tag == tag && Follows(children[1..], slots))
  }

  function AddressSlots(): Slots {
    Maybe(Ulice, Maybe(Misto, Maybe(PSC, End)))
  }

  function FirmSlots(): Slots {
    Maybe(ObchNazev, Maybe(ObchAdresa, Maybe(FaktNazev, Maybe(ICO, Maybe(DIC, Maybe(FaktAdresa,
      Maybe(Nazev, Maybe(Adresa, End))))))))
  }

  function OrderSlots(): Slots {
    Maybe(Popis, Maybe(Poznamka, One(Vystaveno, Maybe(VyriditDo, Maybe(DodOdb, One(PrimDoklad,
      Maybe(Valuty, Many(Polozka, End))))))))
  }

  function ItemEndSlots(): Slots {
    One(SazbaDPH, One(TypCeny, One(Poradi, Maybe(ItemValuty, Maybe(NesklPolozka, End)))))
  }

  function ItemSlots(): Slots {
    One(Popis, Maybe(Poznamka, One(PocetMJ, Maybe(Cena, ItemEndSlots()))))
  }

  /** What the schema allows below an element. */
  function SlotsOf(tag: Tag): Slots {
    match tag
    case MoneyData => One(SeznamObjPrij, End)
    case SeznamObjPrij => Many(ObjPrij, End)
    case ObjPrij => OrderSlots()
    case DodOdb => FirmSlots()
    case ObchAdresa => AddressSlots()
    case FaktAdresa => AddressSlots()
    case Adresa => AddressSlots()
    case Valuty => One(Mena, One(SouhrnDPH, One(Celkem, End)))
    case Mena => One(Kod, End)
    case Polozka => ItemSlots()
    case NesklPolozka => Maybe(MJ, Maybe(Katalog, End))
    case _ => End
  }

  /** The schema's longest text of an element, where it has one. */
  function LimitOf(tag: Tag): Option<nat> {
    match tag
    case Popis => Some(50)
    case PrimDoklad => Some(20)
    case ObchNazev => Some(255)
    case FaktNazev => Some(255)
    case Nazev => Some(255)
    case ICO => Some(10)
    case DIC => Some(20)
    case Ulice => Some(50)
    case Misto => Some(40)
    case PSC => Some(10)
    case MJ => Some(10)
    case Katalog => Some(60)
    case Kod => Some(4)
    case _ => None
  }

  predicate WithinLimit(tag: Tag, length: nat) {
    LimitOf(tag).Some? ==> length <= LimitOf(tag).value
  }

  /** A tree the importer accepts: ordered children, XML characters and short enough texts throughout. */
  ghost predicate Conforms(e: Element) {
    && IsXmlText(e.text)
    && WithinLimit(e.tag, |e.text|)
    && Follows(e.children, SlotsOf(e.tag))
    && AllConform(e.children)
  }

  ghost predicate AllConform(children: seq<Element>) {
    forall e | e in children :: Conforms(e)
  }

  // -------------------------------------------------------------------- building

  function Leaf(tag: Tag, text: Text): Element {
    Element(tag, XmlSafe(text), [])
  }

  function Optional(tag: Tag, text: Option<Text>): seq<Element> {
    if text.Some? then [Leaf(tag, text.value)] else []
  }

  /** An element without a text of its own, left out when it would be empty. */
  function Parent(tag: Tag, children: seq<Element>): seq<Element> {
    if children == [] then [] else [Element(tag, [], children)]
  }

  function AddressLines(p: Partner): seq<Element> {
    Optional(Ulice, Clip(p.street, 50)) + (Optional(Misto, Clip(p.city, 40)) + Optional(PSC, Clip(p.zip, 10)))
  }

  function Address(tag: Tag, p: Partner): seq<Element> {
    Parent(tag, AddressLines(p))
  }

  function FirmLines(p: Partner): seq<Element> {
    var company := Clip(Some(p.company), 255);
    Optional(ObchNazev, company) + (Address(ObchAdresa, p) + (Optional(FaktNazev, company)
    + (Optional(ICO, XmlText.Fits(p.ico, 10)) + (Optional(DIC, XmlText.Fits(p.dic, 20)) + (Address(FaktAdresa, p)
    + (Optional(Nazev, company) + Address(Adresa, p)))))))
  }

  function Firm(p: Partner): seq<Element> {
    Parent(DodOdb, FirmLines(p))
  }

  function Cut(t: Text, limit: nat): (r: Text)
    ensures |r| <= limit
  {
    if |t| <= limit then t else t[..limit]
  }

  /** A stripped text, if any is left. */
  function Stripped(t: Option<Text>): Option<Text> {
    if t.Some? && Strip(t.value) != [] then Some(Strip(t.value)) else None
  }

  function Or(t: Option<Text>, other: Text): Text {
    if t.Some? then t.value else other
  }

  /** An item's wording on one line; a dash when there is none. */
  function ItemText(it: Item): Text {
    if Collapse(it.text) == [] then Chars("-") else Collapse(it.text)
  }

  function ItemPopis(it: Item): Text {
    Or(Clip(Some(ItemText(it)), 50), Chars("-"))
  }

  /** The full wording, when `Popis` had to cut it. */
  function UncutText(it: Item): Option<Text> {
    if ItemPopis(it) != ItemText(it) then Stripped(Some(ItemText(it))) else None
  }

  /** Two texts on lines of their own. */
  function Lines(a: Option<Text>, b: Option<Text>): Option<Text> {
    if a.None? then b else if b.None? then a else Some(a.value + ([NEWLINE] + b.value))
  }

  function Notes(it: Item): Option<Text> {
    Lines(UncutText(it), Stripped(it.note))
  }

  function Price(it: Item, shown: bool): Option<Text> {
    if it.unitPrice.Some? && shown then Some(Chars(Num(it.unitPrice.value))) else None
  }

  function NonStockLines(it: Item): seq<Element> {
    Optional(MJ, Clip(it.unit, 10)) + Optional(Katalog, XmlText.Fits(it.code, 60))
  }

  function NonStock(it: Item): seq<Element> {
    Parent(NesklPolozka, NonStockLines(it))
  }

  function ItemEnd(vat: Text, index: Text, foreign: Option<Text>, nonStock: seq<Element>): seq<Element> {
    [Leaf(SazbaDPH, vat)] + ([Leaf(TypCeny, Chars("0"))] + ([Leaf(Poradi, index)]
    + (Optional(ItemValuty, foreign) + nonStock)))
  }

  function ItemStart(popis: Text, notes: Option<Text>, amount: Text, price: Option<Text>, end: seq<Element>)
      : seq<Element> {
    [Leaf(Popis, popis)] + (Optional(Poznamka, notes) + ([Leaf(PocetMJ, amount)] + (Optional(Cena, price) + end)))
  }

  function ItemTail(it: Item, index: nat, foreign: bool, vat: string): seq<Element> {
    ItemEnd(Chars(vat), Chars(DigitsOf(index)), Price(it, foreign), NonStock(it))
  }

  function ItemChildren(it: Item, index: nat, foreign: bool, vat: string): seq<Element> {
    ItemStart(ItemPopis(it), Notes(it), Chars(Num(it.quantity)), Price(it, !foreign),
              ItemTail(it, index, foreign, vat))
  }

  function ItemElement(it: Item, index: nat, foreign: bool, vat: string): Element {
    Element(Polozka, [], ItemChildren(it, index, foreign, vat))
  }

  function ItemElements(o: Order, vat: string): seq<Element> {
    seq(|o.items|, i requires 0 <= i < |o.items| => ItemElement(o.items[i], i + 1, Foreign(o), vat))
  }

  function TotalElement(code: Text, total: Text): Element {
    Element(Valuty, [], [Element(Mena, [], [Leaf(Kod, code)])] + ([Leaf(SouhrnDPH, [])] + [Leaf(Celkem, total)]))
  }

  function OrderTotal(o: Order): seq<Element> {
    if Foreign(o) && TotalOf(o).Some?
    then [TotalElement(Cut(Chars(Upper(o.currency)), 4), Chars(Num(TotalOf(o).value)))]
    else []
  }

  function DueDate(o: Order): Option<Text> {
    if o.dateTo.Some? then Some(Chars(o.dateTo.value)) else None
  }

  function OrderList(popis: Option<Text>, note: Option<Text>, date: Text, due: Option<Text>, firm: seq<Element>,
                     number: Text, total: seq<Element>, items: seq<Element>): seq<Element> {
    Optional(Popis, popis) + (Optional(Poznamka, note) + ([Leaf(Vystaveno, date)] + (Optional(VyriditDo, due)
    + (firm + ([Leaf(PrimDoklad, number)] + (total + items))))))
  }

  function OrderChildren(o: Order, items: seq<Element>): seq<Element> {
    OrderList(Clip(Some(o.title), 50), Stripped(o.note), Chars(o.orderDate), DueDate(o), Firm(o.partner),
              Cut(o.number, 20), OrderTotal(o), items)
  }

  function OrderElement(o: Order, items: seq<Element>): Element {
    Element(ObjPrij, [], OrderChildren(o, items))
  }

  datatype ExportError = NothingToExport | UnsupportedVatRate | TotalOutOfRange

  /** The document: attributes of its root, and the orders' elements. */
  datatype Document = Document(icAgendy: Option<Text>, description: Text, orders: seq<Element>)

  function VatPercent(rate: string): Option<string> {
    match rate
    case "none" => Some("0")
    case "high" => Some("21")
    case "low" => Some("12")
    case _ => None
  }

  function Root(orders: seq<Element>): Element {
    Element(MoneyData, [], [Element(SeznamObjPrij, [], orders)])
  }

  // --------------------------------------------------------------- conformance

  lemma LeafConforms(tag: Tag, text: Text)
    requires WithinLimit(tag, |text|) && SlotsOf(tag) == End
    ensures Conforms(Leaf(tag, text))
  {
    XmlSafeCleans(text);
  }

  /** Children that conform and come in order. */
  ghost predicate Ready(children: seq<Element>, slots: Slots) {
    AllConform(children) && Follows(children, slots)
  }

  lemma OneFirst(e: Element, rest: seq<Element>, slots: Slots)
    requires Ready(rest, slots) && Conforms(e)
    ensures Ready([e] + rest, One(e.tag, slots))
  {
    assert ([e] + rest)[1..] == rest;
  }

  /** None or one element of `tag`. */
  ghost predicate MayStand(es: seq<Element>, tag: Tag) {
    es == [] || (|es| == 1 && es[0].tag == tag && Conforms(es[0]))
  }

  lemma MaybeFirst(es: seq<Element>, tag: Tag, rest: seq<Element>, slots: Slots)
    requires MayStand(es, tag) && Ready(rest, slots)
    ensures Ready(es + rest, Maybe(tag, slots))
  {
    if es == [] {
      assert es + rest == rest;
    } else {
      assert (es + rest)[1..] == rest;
    }
  }

  lemma TwoMaybes(a: seq<Element>, ta: Tag, b: seq<Element>, tb: Tag, rest: seq<Element>, slots: Slots)
    requires MayStand(a, ta) && MayStand(b, tb) && Ready(rest, slots)
    ensures Ready(a + (b + rest), Maybe(ta, Maybe(tb, slots)))
  {
    MaybeFirst(b, tb, rest, slots);
    MaybeFirst(a, ta, b + rest, Maybe(tb, slots));
  }

  lemma OneThenMaybe(e: Element, b: seq<Element>, tb: Tag, rest: seq<Element>, slots: Slots)
    requires Conforms(e) && MayStand(b, tb) && Ready(rest, slots)
    ensures Ready([e] + (b + rest), One(e.tag, Maybe(tb, slots)))
  {
    MaybeFirst(b, tb, rest, slots);
    OneFirst(e, b + rest, Maybe(tb, slots));
  }

  lemma TwoOnes(e: Element, f: Element, rest: seq<Element>, slots: Slots)
    requires Conforms(e) && Conforms(f) && Ready(rest, slots)
    ensures Ready([e] + ([f] + rest), One(e.tag, One(f.tag, slots)))
  {
    OneFirst(f, rest, slots);
    OneFirst(e, [f] + rest, One(f.tag, slots));
  }

  predicate IsNamed(es: seq<Element>, tag: Tag) {
    forall i | 0 <= i < |es| :: es[i].tag == tag
  }

  lemma {:induction false} ManyFollow(es: seq<Element>, tag: Tag)
    requires IsNamed(es, tag)
    ensures Follows(es, Many(tag, End))
  {
    if es != [] {
      ManyFollow(es[1..], tag);
    }
  }

  lemma LastMaybe(es: seq<Element>, tag: Tag)
    requires MayStand(es, tag)
    ensures Ready(es, Maybe(tag, End))
  {
    MaybeFirst(es, tag, [], End);
    assert es + [] == es;
  }

  lemma LastOne(e: Element)
    requires Conforms(e)
    ensures Ready([e], One(e.tag, End))
  {
    OneFirst(e, [], End);
    assert [e] + [] == [e];
  }

  lemma ClipStands(tag: Tag, value: Option<Text>, limit: nat)
    requires limit > 0 && WithinLimit(tag, limit) && SlotsOf(tag) == End
    ensures MayStand(Optional(tag, Clip(value, limit)), tag)
  {
    ClippedFits(value, limit);
    OptionStands(tag, Clip(value, limit));
  }

  lemma FitsStands(tag: Tag, value: Option<Text>, limit: nat)
    requires WithinLimit(tag, limit) && SlotsOf(tag) == End
    ensures MayStand(Optional(tag, XmlText.Fits(value, limit)), tag)
  {
    OptionStands(tag, XmlText.Fits(value, limit));
  }

  lemma OptionStands(tag: Tag, text: Option<Text>)
    requires (text.Some? ==> WithinLimit(tag, |text.value|)) && SlotsOf(tag) == End
    ensures MayStand(Optional(tag, text), tag)
  {
    if text.Some? {
      LeafConforms(tag, text.value);
    }
  }

  lemma ParentStands(tag: Tag, children: seq<Element>)
    requires Ready(children, SlotsOf(tag))
    ensures MayStand(Parent(tag, children), tag) && Conforms(Element(tag, [], children))
  {
  }

  lemma AddressLinesStand(p: Partner)
    ensures MayStand(Optional(Ulice, Clip(p.street, 50)), Ulice)
    ensures MayStand(Optional(Misto, Clip(p.city, 40)), Misto)
    ensures MayStand(Optional(PSC, Clip(p.zip, 10)), PSC)
  {
    ClipStands(Ulice, p.street, 50);
    ClipStands(Misto, p.city, 40);
    ClipStands(PSC, p.zip, 10);
  }

  lemma AddressLinesAreReady(p: Partner)
    ensures Ready(AddressLines(p), AddressSlots())
  {
    AddressLinesStand(p);
    LastMaybe(Optional(PSC, Clip(p.zip, 10)), PSC);
    TwoMaybes(Optional(Ulice, Clip(p.street, 50)), Ulice, Optional(Misto, Clip(p.city, 40)), Misto,
              Optional(PSC, Clip(p.zip, 10)), Maybe(PSC, End));
  }

  lemma AddressStands(tag: Tag, p: Partner)
    requires tag == ObchAdresa || tag == FaktAdresa || tag == Adresa
    ensures MayStand(Address(tag, p), tag)
  {
    AddressLinesAreReady(p);
    ParentStands(tag, AddressLines(p));
  }

  lemma FirmInOrder(name: seq<Element>, address: seq<Element>, billed: seq<Element>, ico: seq<Element>,
                    dic: seq<Element>, billing: seq<Element>, title: seq<Element>, postal: seq<Element>)
    requires MayStand(name, ObchNazev) && MayStand(address, ObchAdresa) && MayStand(billed, FaktNazev)
    requires MayStand(ico, ICO) && MayStand(dic, DIC) && MayStand(billing, FaktAdresa)
    requires MayStand(title, Nazev) && MayStand(postal, Adresa)
    ensures Ready(name + (address + (billed + (ico + (dic + (billing + (title + postal)))))), FirmSlots())
  {
    var t7 := Maybe(Nazev, Maybe(Adresa, End));
    LastMaybe(postal, Adresa);
    MaybeFirst(title, Nazev, postal, Maybe(Adresa, End));
    TwoMaybes(dic, DIC, billing, FaktAdresa, title + postal, t7);
    var t5 := Maybe(DIC, Maybe(FaktAdresa, t7));
    TwoMaybes(billed, FaktNazev, ico, ICO, dic + (billing + (title + postal)), t5);
    TwoMaybes(name, ObchNazev, address, ObchAdresa, billed + (ico + (dic + (billing + (title + postal)))),
              Maybe(FaktNazev, Maybe(ICO, t5)));
  }

  lemma FirmNamesStand(p: Partner)
    ensures var company := Clip(Some(p.company), 255);
      MayStand(Optional(ObchNazev, company), ObchNazev) && MayStand(Optional(FaktNazev, company), FaktNazev)
      && MayStand(Optional(Nazev, company), Nazev)
  {
    ClipStands(ObchNazev, Some(p.company), 255);
    ClipStands(FaktNazev, Some(p.company), 255);
    ClipStands(Nazev, Some(p.company), 255);
  }

  lemma FirmNumbersStand(p: Partner)
    ensures MayStand(Optional(ICO, XmlText.Fits(p.ico, 10)), ICO)
    ensures MayStand(Optional(DIC, XmlText.Fits(p.dic, 20)), DIC)
  {
    FitsStands(ICO, p.ico, 10);
    FitsStands(DIC, p.dic, 20);
  }

  lemma FirmAddressesStand(p: Partner)
    ensures MayStand(Address(ObchAdresa, p), ObchAdresa) && MayStand(Address(FaktAdresa, p), FaktAdresa)
    ensures MayStand(Address(Adresa, p), Adresa)
  {
    AddressStands(ObchAdresa, p);
    AddressStands(FaktAdresa, p);
    AddressStands(Adresa, p);
  }

  lemma FirmLinesAreReady(p: Partner)
    ensures Ready(FirmLines(p), FirmSlots())
  {
    FirmNamesStand(p);
    FirmNumbersStand(p);
    FirmAddressesStand(p);
    var company := Clip(Some(p.company), 255);
    FirmInOrder(Optional(ObchNazev, company), Address(ObchAdresa, p), Optional(FaktNazev, company),
                Optional(ICO, XmlText.Fits(p.ico, 10)), Optional(DIC, XmlText.Fits(p.dic, 20)),
                Address(FaktAdresa, p), Optional(Nazev, company), Address(Adresa, p));
  }

  lemma FirmStands(p: Partner)
    ensures MayStand(Firm(p), DodOdb)
  {
    FirmLinesAreReady(p);
    ParentStands(DodOdb, FirmLines(p));
  }

  lemma NonStockLinesAreReady(it: Item)
    ensures Ready(NonStockLines(it), Maybe(MJ, Maybe(Katalog, End)))
  {
    ClipStands(MJ, it.unit, 10);
    FitsStands(Katalog, it.code, 60);
    LastMaybe(Optional(Katalog, XmlText.Fits(it.code, 60)), Katalog);
    MaybeFirst(Optional(MJ, Clip(it.unit, 10)), MJ, Optional(Katalog, XmlText.Fits(it.code, 60)), Maybe(Katalog, End));
  }

  lemma NonStockStands(it: Item)
    ensures MayStand(NonStock(it), NesklPolozka)
  {
    NonStockLinesAreReady(it);
    ParentStands(NesklPolozka, NonStockLines(it));
  }

  lemma ItemEndInOrder(vat: Element, kind: Element, index: Element, foreign: seq<Element>, nonStock: seq<Element>)
    requires Conforms(vat) && Conforms(kind) && Conforms(index)
    requires vat.tag == SazbaDPH && kind.tag == TypCeny && index.tag == Poradi
    requires MayStand(foreign, ItemValuty) && MayStand(nonStock, NesklPolozka)
    ensures Ready([vat] + ([kind] + ([index] + (foreign + nonStock))), ItemEndSlots())
  {
    LastMaybe(nonStock, NesklPolozka);
    OneThenMaybe(index, foreign, ItemValuty, nonStock, Maybe(NesklPolozka, End));
    TwoOnes(vat, kind, [index] + (foreign + nonStock), One(Poradi, Maybe(ItemValuty, Maybe(NesklPolozka, End))));
  }

  lemma ItemInOrder(popis: Element, notes: seq<Element>, amount: Element, price: seq<Element>,
                    rest: seq<Element>, slots: Slots)
    requires Conforms(popis) && Conforms(amount) && popis.tag == Popis && amount.tag == PocetMJ
    requires MayStand(notes, Poznamka) && MayStand(price, Cena) && Ready(rest, slots)
    ensures Ready([popis] + (notes + ([amount] + (price + rest))),
                  One(Popis, Maybe(Poznamka, One(PocetMJ, Maybe(Cena, slots)))))
  {
    OneThenMaybe(amount, price, Cena, rest, slots);
    OneThenMaybe(popis, notes, Poznamka, [amount] + (price + rest), One(PocetMJ, Maybe(Cena, slots)));
  }

  lemma ItemEndLeavesConform(vat: Text, index: Text)
    ensures Conforms(Leaf(SazbaDPH, vat)) && Conforms(Leaf(TypCeny, Chars("0"))) && Conforms(Leaf(Poradi, index))
  {
    LeafConforms(SazbaDPH, vat);
    LeafConforms(TypCeny, Chars("0"));
    LeafConforms(Poradi, index);
  }

  lemma ItemEndIsReady(vat: Text, index: Text, foreign: Option<Text>, nonStock: seq<Element>)
    requires MayStand(nonStock, NesklPolozka)
    ensures Ready(ItemEnd(vat, index, foreign, nonStock), ItemEndSlots())
  {
    OptionStands(ItemValuty, foreign);
    ItemEndLeavesConform(vat, index);
    ItemEndInOrder(Leaf(SazbaDPH, vat), Leaf(TypCeny, Chars("0")), Leaf(Poradi, index),
                   Optional(ItemValuty, foreign), nonStock);
  }

  lemma ItemStartIsReady(popis: Text, notes: Option<Text>, amount: Text, price: Option<Text>, end: seq<Element>)
    requires |popis| <= 50 && Ready(end, ItemEndSlots())
    ensures Ready(ItemStart(popis, notes, amount, price, end), ItemSlots())
  {
    LeafConforms(Popis, popis);
    LeafConforms(PocetMJ, amount);
    OptionStands(Poznamka, notes);
    OptionStands(Cena, price);
    ItemInOrder(Leaf(Popis, popis), Optional(Poznamka, notes), Leaf(PocetMJ, amount), Optional(Cena, price),
                end, ItemEndSlots());
  }

  lemma PopisIsShort(it: Item)
    ensures |ItemPopis(it)| <= 50
  {
    ClippedFits(Some(ItemText(it)), 50);
  }

  lemma ItemChildrenAreReady(it: Item, index: nat, foreign: bool, vat: string)
    ensures Ready(ItemChildren(it, index, foreign, vat), ItemSlots())
  {
    NonStockStands(it);
    ItemEndIsReady(Chars(vat), Chars(DigitsOf(index)), Price(it, foreign), NonStock(it));
    PopisIsShort(it);
    ItemStartIsReady(ItemPopis(it), Notes(it), Chars(Num(it.quantity)), Price(it, !foreign),
                     ItemEnd(Chars(vat), Chars(DigitsOf(index)), Price(it, foreign), NonStock(it)));
  }

  lemma ItemConforms(it: Item, index: nat, foreign: bool, vat: string)
    ensures Conforms(ItemElement(it, index, foreign, vat))
  {
    ItemChildrenAreReady(it, index, foreign, vat);
    ParentStands(Polozka, ItemChildren(it, index, foreign, vat));
  }

  lemma TotalInOrder(code: Element, vat: Element, total: Element)
    requires Conforms(code) && Conforms(vat) && Conforms(total)
    requires code.tag == Kod && vat.tag == SouhrnDPH && total.tag == Celkem
    ensures Conforms(Element(Valuty, [], [Element(Mena, [], [code])] + ([vat] + [total])))
  {
    LastOne(code);
    ParentStands(Mena, [code]);
    LastOne(total);
    TwoOnes(Element(Mena, [], [code]), vat, [total], One(Celkem, End));
    ParentStands(Valuty, [Element(Mena, [], [code])] + ([vat] + [total]));
  }

  lemma TotalConforms(code: Text, total: Text)
    requires |code| <= 4
    ensures Conforms(TotalElement(code, total))
  {
    LeafConforms(Kod, code);
    LeafConforms(Celkem, total);
    LeafConforms(SouhrnDPH, []);
    TotalInOrder(Leaf(Kod, code), Leaf(SouhrnDPH, []), Leaf(Celkem, total));
  }

  lemma OrderTotalStands(o: Order)
    ensures MayStand(OrderTotal(o), Valuty)
  {
    if Foreign(o) && TotalOf(o).Some? {
      TotalConforms(Cut(Chars(Upper(o.currency)), 4), Chars(Num(TotalOf(o).value)));
    }
  }

  lemma OrderInOrder(popis: seq<Element>, note: seq<Element>, date: Element, due: seq<Element>, firm: seq<Element>,
                     number: Element, total: seq<Element>, items: seq<Element>)
    requires MayStand(popis, Popis) && MayStand(note, Poznamka) && MayStand(due, VyriditDo) && MayStand(firm, DodOdb)
    requires MayStand(total, Valuty) && Conforms(date) && Conforms(number)
    requires date.tag == Vystaveno && number.tag == PrimDoklad
    requires AllConform(items) && IsNamed(items, Polozka)
    ensures Ready(popis + (note + ([date] + (due + (firm + ([number] + (total + items)))))), OrderSlots())
  {
    ManyFollow(items, Polozka);
    var t6 := One(PrimDoklad, Maybe(Valuty, Many(Polozka, End)));
    OneThenMaybe(number, total, Valuty, items, Many(Polozka, End));
    var s4, t4 := due + (firm + ([number] + (total + items))), Maybe(VyriditDo, Maybe(DodOdb, t6));
    TwoMaybes(due, VyriditDo, firm, DodOdb, [number] + (total + items), t6);
    OneFirst(date, s4, t4);
    TwoMaybes(popis, Popis, note, Poznamka, [date] + s4, One(Vystaveno, t4));
  }

  lemma OrderTextsStand(popis: Option<Text>, note: Option<Text>, due: Option<Text>)
    requires popis.Some? ==> |popis.value| <= 50
    ensures MayStand(Optional(Popis, popis), Popis) && MayStand(Optional(Poznamka, note), Poznamka)
    ensures MayStand(Optional(VyriditDo, due), VyriditDo)
  {
    OptionStands(Popis, popis);
    OptionStands(Poznamka, note);
    OptionStands(VyriditDo, due);
  }

  lemma OrderListIsReady(popis: Option<Text>, note: Option<Text>, date: Text, due: Option<Text>,
      firm: seq<Element>, number: Text, total: seq<Element>, items: seq<Element>)
    requires (popis.Some? ==> |popis.value| <= 50) && |number| <= 20
    requires MayStand(firm, DodOdb) && MayStand(total, Valuty) && AllConform(items) && IsNamed(items, Polozka)
    ensures Ready(OrderList(popis, note, date, due, firm, number, total, items), OrderSlots())
  {
    OrderTextsStand(popis, note, due);
    LeafConforms(Vystaveno, date);
    LeafConforms(PrimDoklad, number);
    OrderInOrder(Optional(Popis, popis), Optional(Poznamka, note), Leaf(Vystaveno, date), Optional(VyriditDo, due),
                 firm, Leaf(PrimDoklad, number), total, items);
  }

  lemma OrderChildrenAreReady(o: Order, items: seq<Element>)
    requires AllConform(items) && IsNamed(items, Polozka)
    ensures Ready(OrderChildren(o, items), OrderSlots())
  {
    ClippedFits(Some(o.title), 50);
    FirmStands(o.partner);
    OrderTotalStands(o);
    OrderListIsReady(Clip(Some(o.title), 50), Stripped(o.note), Chars(o.orderDate), DueDate(o), Firm(o.partner),
                     Cut(o.number, 20), OrderTotal(o), items);
  }

  lemma OrderConforms(o: Order, items: seq<Element>)
    requires AllConform(items) && IsNamed(items, Polozka)
    ensures Conforms(OrderElement(o, items))
  {
    OrderChildrenAreReady(o, items);
    ParentStands(ObjPrij, OrderChildren(o, items));
  }

  lemma RootConforms(orders: seq<Element>)
    requires AllConform(orders) && IsNamed(orders, ObjPrij)
    ensures Conforms(Root(orders))
  {
    ManyFollow(orders, ObjPrij);
    ParentStands(SeznamObjPrij, orders);
    LastOne(Element(SeznamObjPrij, [], orders));
    ParentStands(MoneyData, [Element(SeznamObjPrij, [], orders)]);
  }

  // --------------------------------------------------------- what the tree says

  /** The children of one name. */
  function Only(es: seq<Element>, tag: Tag): seq<Element> {
    OnlyTo(es, |es|, tag)
  }

  function OnlyTo(es: seq<Element>, n: nat, tag: Tag): seq<Element>
    requires n <= |es|
  {
    if n == 0 then []
    else if es[n - 1].tag == tag then OnlyTo(es, n - 1, tag) + [es[n - 1]]
    else OnlyTo(es, n - 1, tag)
  }

  lemma {:induction false} OnlyToPrefix(a: seq<Element>, b: seq<Element>, n: nat, tag: Tag)
    requires n <= |a|
    ensures OnlyTo(a + b, n, tag) == OnlyTo(a, n, tag)
  {
    if n > 0 {
      OnlyToPrefix(a, b, n - 1, tag);
    }
  }

  lemma {:induction false} OnlyToConcat(a: seq<Element>, b: seq<Element>, m: nat, tag: Tag)
    requires m <= |b|
    ensures OnlyTo(a + b, |a| + m, tag) == OnlyTo(a, |a|, tag) + OnlyTo(b, m, tag)
  {
    if m == 0 {
      OnlyToPrefix(a, b, |a|, tag);
    } else {
      OnlyToConcat(a, b, m - 1, tag);
      assert (a + b)[|a| + m - 1] == b[m - 1];
    }
  }

  lemma {:induction false} OnlyNamed(es: seq<Element>, n: nat, own: Tag, tag: Tag)
    requires n <= |es| && IsNamed(es, own)
    ensures OnlyTo(es, n, tag) == if tag == own then es[..n] else []
  {
    if n > 0 {
      OnlyNamed(es, n - 1, own, tag);
      assert es[..n] == es[..n - 1] + [es[n - 1]];
    }
  }

  lemma OnlyOf(es: seq<Element>, own: Tag, tag: Tag)
    requires IsNamed(es, own)
    ensures Only(es, tag) == if tag == own then es else []
  {
    OnlyNamed(es, |es|, own, tag);
    assert es[..|es|] == es;
  }

  lemma OnlyFirst(es: seq<Element>, own: Tag, rest: seq<Element>, tag: Tag)
    requires IsNamed(es, own)
    ensures Only(es + rest, tag) == if tag == own then es + Only(rest, tag) else Only(rest, tag)
  {
    OnlyToConcat(es, rest, |rest|, tag);
    OnlyOf(es, own, tag);
  }

  lemma OnlyInFour(a: seq<Element>, ta: Tag, b: seq<Element>, tb: Tag, c: seq<Element>, tc: Tag,
                   d: seq<Element>, td: Tag, rest: seq<Element>, tag: Tag)
    requires IsNamed(a, ta) && IsNamed(b, tb) && IsNamed(c, tc) && IsNamed(d, td)
    requires ta != tb && ta != tc && ta != td && tb != tc && tb != td && tc != td
    ensures Only(a + (b + (c + (d + rest))), tag)
         == if tag == ta then a + Only(rest, tag)
            else if tag == tb then b + Only(rest, tag)
            else if tag == tc then c + Only(rest, tag)
            else if tag == td then d + Only(rest, tag)
            else Only(rest, tag)
  {
    OnlyFirst(d, td, rest, tag);
    OnlyFirst(c, tc, d + rest, tag);
    OnlyFirst(b, tb, c + (d + rest), tag);
    OnlyFirst(a, ta, b + (c + (d + rest)), tag);
  }

  lemma OnlyInItemEnd(vat: Text, index: Text, foreign: Option<Text>, nonStock: seq<Element>, tag: Tag)
    requires IsNamed(nonStock, NesklPolozka)
    ensures Only(ItemEnd(vat, index, foreign, nonStock), tag)
         == match tag
            case SazbaDPH => [Leaf(SazbaDPH, vat)]
            case TypCeny => [Leaf(TypCeny, Chars("0"))]
            case Poradi => [Leaf(Poradi, index)]
            case ItemValuty => Optional(ItemValuty, foreign)
            case NesklPolozka => nonStock
            case _ => []
  {
    OnlyInFour([Leaf(SazbaDPH, vat)], SazbaDPH, [Leaf(TypCeny, Chars("0"))], TypCeny, [Leaf(Poradi, index)], Poradi,
               Optional(ItemValuty, foreign), ItemValuty, nonStock, tag);
    OnlyOf(nonStock, NesklPolozka, tag);
  }

  lemma OnlyInItemStart(popis: Text, notes: Option<Text>, amount: Text, price: Option<Text>, end: seq<Element>,
                        tag: Tag)
    ensures Only(ItemStart(popis, notes, amount, price, end), tag)
         == match tag
            case Popis => [Leaf(Popis, popis)] + Only(end, tag)
            case Poznamka => Optional(Poznamka, notes) + Only(end, tag)
            case PocetMJ => [Leaf(PocetMJ, amount)] + Only(end, tag)
            case Cena => Optional(Cena, price) + Only(end, tag)
            case _ => Only(end, tag)
  {
    OnlyInFour([Leaf(Popis, popis)], Popis, Optional(Poznamka, notes), Poznamka, [Leaf(PocetMJ, amount)], PocetMJ,
               Optional(Cena, price), Cena, end, tag);
  }

  /** What the first elements of an item say, when the last ones are of other kinds. */
  lemma StartSays(popis: Text, notes: Option<Text>, amount: Text, price: Option<Text>, end: seq<Element>, tag: Tag)
    requires Only(end, tag) == []
    ensures var found := Only(ItemStart(popis, notes, amount, price, end), tag);
      && (tag == Popis ==> found == [Leaf(Popis, popis)])
      && (tag == Poznamka ==> found == Optional(Poznamka, notes))
      && (tag == Cena ==> found == Optional(Cena, price))
  {
    OnlyInItemStart(popis, notes, amount, price, end, tag);
  }

  lemma EndSays(popis: Text, notes: Option<Text>, amount: Text, price: Option<Text>, end: seq<Element>, tag: Tag)
    requires tag == Poradi || tag == ItemValuty
    ensures Only(ItemStart(popis, notes, amount, price, end), tag) == Only(end, tag)
  {
    OnlyInItemStart(popis, notes, amount, price, end, tag);
  }

  lemma TailSays(it: Item, index: nat, foreign: bool, vat: string, tag: Tag)
    ensures var found := Only(ItemTail(it, index, foreign, vat), tag);
      && (tag == Popis || tag == Poznamka || tag == Cena ==> found == [])
      && (tag == Poradi ==> found == [Leaf(Poradi, Chars(DigitsOf(index)))])
      && (tag == ItemValuty ==> found == Optional(ItemValuty, Price(it, foreign)))
  {
    OnlyInItemEnd(Chars(vat), Chars(DigitsOf(index)), Price(it, foreign), NonStock(it), tag);
  }

  /** What an item says of its wording and its price at home. */
  lemma StartInItem(it: Item, index: nat, foreign: bool, vat: string, tag: Tag)
    requires tag == Popis || tag == Poznamka || tag == Cena
    ensures var found := Only(ItemChildren(it, index, foreign, vat), tag);
      && (tag == Popis ==> found == [Leaf(Popis, ItemPopis(it))])
      && (tag == Poznamka ==> found == Optional(Poznamka, Notes(it)))
      && (tag == Cena ==> found == Optional(Cena, Price(it, !foreign)))
  {
    TailSays(it, index, foreign, vat, tag);
    StartSays(ItemPopis(it), Notes(it), Chars(Num(it.quantity)), Price(it, !foreign),
              ItemTail(it, index, foreign, vat), tag);
  }

  /** And of its place and its price abroad. */
  lemma EndInItem(it: Item, index: nat, foreign: bool, vat: string, tag: Tag)
    requires tag == Poradi || tag == ItemValuty
    ensures var found := Only(ItemChildren(it, index, foreign, vat), tag);
      && (tag == Poradi ==> found == [Leaf(Poradi, Chars(DigitsOf(index)))])
      && (tag == ItemValuty ==> found == Optional(ItemValuty, Price(it, foreign)))
  {
    TailSays(it, index, foreign, vat, tag);
    EndSays(ItemPopis(it), Notes(it), Chars(Num(it.quantity)), Price(it, !foreign),
            ItemTail(it, index, foreign, vat), tag);
  }

  /** A price is given once: at home as `Cena`, abroad as `Valuty`. */
  lemma NeverBothPrices(it: Item, index: nat, foreign: bool, vat: string)
    ensures var e := ItemElement(it, index, foreign, vat);
      && (Only(e.children, Cena) != [] <==> it.unitPrice.Some? && !foreign)
      && (Only(e.children, ItemValuty) != [] <==> it.unitPrice.Some? && foreign)
  {
    StartInItem(it, index, foreign, vat, Cena);
    EndInItem(it, index, foreign, vat, ItemValuty);
  }

  lemma DigitsAreXmlText(s: string)
    requires AllDigits(s)
    ensures XmlSafe(Chars(s)) == Chars(s)
  {
    forall i | 0 <= i < |s| ensures IsXmlChar(Chars(s)[i]) {
      assert IsDigit(s[i]);
    }
    XmlSafeCleans(Chars(s));
  }

  /** `Poradi` is the item's place, counted from one. */
  lemma PoradiIsThePlace(it: Item, index: nat, foreign: bool, vat: string)
    ensures Only(ItemElement(it, index, foreign, vat).children, Poradi)
         == [Element(Poradi, Chars(DigitsOf(index)), [])]
  {
    EndInItem(it, index, foreign, vat, Poradi);
    DigitsAreXmlText(DigitsOf(index));
  }

  // -------------------------------------------------- the wording of an item

  lemma ItemTextIsCollapsed(it: Item)
    ensures Collapse(ItemText(it)) == ItemText(it) && IsCollapsed(ItemText(it)) && ItemText(it) != []
  {
    CollapseIsCollapsed(it.text);
    CollapseIsCollapsed(ItemText(it));
  }

  lemma CollapsedIsStripped(t: Text)
    requires IsCollapsed(t)
    ensures Strip(t) == t
  {
  }

  /** `Popis` is the wording when it has at most 50 characters, and else something else. */
  lemma PopisIsTheWording(it: Item)
    ensures ItemPopis(it) == ItemText(it) <==> |ItemText(it)| <= 50
  {
    ItemTextIsCollapsed(it);
    PopisIsShort(it);
  }

  lemma XmlSafeOfLine(rest: Text)
    ensures XmlSafe([NEWLINE] + rest) == [NEWLINE] + XmlSafe(rest)
  {
    XmlSafeConcat([NEWLINE], rest);
    assert IsXmlText([NEWLINE]);
    XmlSafeCleans([NEWLINE]);
  }

  lemma FirstLineSurvives(line: Text, rest: Text)
    requires OneLine(line) && (rest != [] ==> rest[0] == NEWLINE)
    ensures FirstLine(XmlSafe(line + rest)) == XmlSafe(line)
  {
    XmlSafeConcat(line, rest);
    SafeToKeepsOneLine(line, |line|);
    if rest != [] {
      XmlSafeOfLine(rest[1..]);
      assert [NEWLINE] + rest[1..] == rest;
    }
    FirstLineIs(XmlSafe(line), XmlSafe(rest));
  }

  lemma UncutIsTheWording(it: Item)
    requires |ItemText(it)| > 50
    ensures UncutText(it) == Some(ItemText(it))
  {
    PopisIsTheWording(it);
    ItemTextIsCollapsed(it);
    CollapsedIsStripped(ItemText(it));
  }

  lemma FirstOfTwoLines(a: Text, b: Option<Text>)
    requires OneLine(a)
    ensures Lines(Some(a), b).Some? && FirstLine(XmlSafe(Lines(Some(a), b).value)) == XmlSafe(a)
  {
    if b.None? {
      assert a + [] == a;
      FirstLineSurvives(a, []);
    } else {
      FirstLineSurvives(a, [NEWLINE] + b.value);
    }
  }

  lemma CollapsedIsOneLine(t: Text)
    requires IsCollapsed(t)
    ensures OneLine(t)
  {
  }

  lemma WordingIsTheFirstLine(it: Item)
    requires |ItemText(it)| > 50
    ensures Notes(it).Some? && FirstLine(XmlSafe(Notes(it).value)) == XmlSafe(ItemText(it))
  {
    UncutIsTheWording(it);
    ItemTextIsCollapsed(it);
    CollapsedIsOneLine(ItemText(it));
    FirstOfTwoLines(ItemText(it), Stripped(it.note));
  }

  /** The end of `text`. */
  predicate EndsIn(text: Text, end: Text) {
    |end| <= |text| && text[|text| - |end|..] == end
  }

  lemma SecondLineSurvives(a: Text, b: Text)
    ensures EndsIn(XmlSafe(a + ([NEWLINE] + b)), XmlSafe(b))
  {
    XmlSafeConcat(a, [NEWLINE] + b);
    XmlSafeOfLine(b);
    assert XmlSafe(a + ([NEWLINE] + b)) == (XmlSafe(a) + [NEWLINE]) + XmlSafe(b);
  }

  /** Nothing a customer wrote is lost: an item's note, stripped and cleaned, is the end of `Poznamka`, and
      all of it when `Popis` has the full wording. */
  lemma NoteIsKept(it: Item, index: nat, foreign: bool, vat: string)
    requires it.note.Some? && Strip(it.note.value) != []
    ensures var notes := Only(ItemElement(it, index, foreign, vat).children, Poznamka);
            var note := XmlSafe(Strip(it.note.value));
            && |notes| == 1 && EndsIn(notes[0].text, note)
            && (|ItemText(it)| <= 50 ==> notes[0].text == note)
  {
    StartInItem(it, index, foreign, vat, Poznamka);
    PopisIsTheWording(it);
    if |ItemText(it)| > 50 {
      UncutIsTheWording(it);
      SecondLineSurvives(ItemText(it), Strip(it.note.value));
    }
  }

  /** And the full wording, cleaned, is `Popis` or the first line of `Poznamka`. */
  lemma WordingIsKept(it: Item, index: nat, foreign: bool, vat: string)
    ensures var e := ItemElement(it, index, foreign, vat);
      if |ItemText(it)| <= 50 then
        Only(e.children, Popis) == [Element(Popis, XmlSafe(ItemText(it)), [])]
      else
        var notes := Only(e.children, Poznamka);
        |notes| == 1 && FirstLine(notes[0].text) == XmlSafe(ItemText(it))
  {
    StartInItem(it, index, foreign, vat, Popis);
    StartInItem(it, index, foreign, vat, Poznamka);
    if |ItemText(it)| <= 50 {
      PopisIsTheWording(it);
    } else {
      WordingIsTheFirstLine(it);
    }
  }

  /** The wording has all the letters of the item's text, in order. */
  lemma WordingHasAllLetters(it: Item)
    requires Letters(it.text) != []
    ensures Letters(ItemText(it)) == Letters(it.text)
  {
    CollapseKeepsLetters(it.text);
    assert Collapse(it.text) != [];
  }

  // ------------------------------------------------------------ the order's items

  lemma ItemsAmong(popis: Option<Text>, note: Option<Text>, date: Text, due: Option<Text>,
      firm: seq<Element>, number: Text, total: seq<Element>, items: seq<Element>)
    requires IsNamed(firm, DodOdb) && IsNamed(total, Valuty) && IsNamed(items, Polozka)
    ensures Only(OrderList(popis, note, date, due, firm, number, total, items), Polozka) == items
  {
    var rest := firm + ([Leaf(PrimDoklad, number)] + (total + items));
    OnlyOf(items, Polozka, Polozka);
    OnlyFirst(total, Valuty, items, Polozka);
    OnlyFirst([Leaf(PrimDoklad, number)], PrimDoklad, total + items, Polozka);
    OnlyFirst(firm, DodOdb, [Leaf(PrimDoklad, number)] + (total + items), Polozka);
    OnlyInFour(Optional(Popis, popis), Popis, Optional(Poznamka, note), Poznamka, [Leaf(Vystaveno, date)], Vystaveno,
               Optional(VyriditDo, due), VyriditDo, rest, Polozka);
  }

  /** A field of a partner that leaves something to print. */
  predicate Says(t: Option<Text>) {
    t.Some? && Letters(t.value) != []
  }

  lemma AddressIsLeftOutWhenEmpty(p: Partner)
    ensures AddressLines(p) != [] <==> Says(p.street) || Says(p.city) || Says(p.zip)
  {
    ClippedFits(p.street, 50);
    ClippedFits(p.city, 40);
    ClippedFits(p.zip, 10);
  }

  /** `DodOdb` is there exactly when some field of the partner is, an identifier that fits included. */
  lemma FirmIsLeftOutWhenEmpty(p: Partner)
    ensures Firm(p) != [] <==>
      || Says(Some(p.company)) || Says(p.street) || Says(p.city) || Says(p.zip)
      || XmlText.Fits(p.ico, 10).Some? || XmlText.Fits(p.dic, 20).Some?
  {
    ClippedFits(Some(p.company), 255);
    AddressIsLeftOutWhenEmpty(p);
  }

  lemma ItemsOfOrder(o: Order, items: seq<Element>)
    requires IsNamed(items, Polozka)
    ensures Only(OrderChildren(o, items), Polozka) == items
  {
    ItemsAmong(Clip(Some(o.title), 50), Stripped(o.note), Chars(o.orderDate), DueDate(o), Firm(o.partner),
               Cut(o.number, 20), OrderTotal(o), items);
  }

  /** The items of an exported order are the order's, in order, counted 1 to n. */
  lemma ItemsAreCounted(o: Order, vat: string, i: nat)
    requires i < |o.items|
    ensures Only(ItemElements(o, vat)[i].children, Poradi) == [Element(Poradi, Chars(DigitsOf(i + 1)), [])]
  {
    PoradiIsThePlace(o.items[i], i + 1, Foreign(o), vat);
  }

  /** The first `n` items, as elements. */
  predicate BuiltTo(items: seq<Element>, o: Order, vat: string, n: nat) {
    n <= |o.items| && items == ItemElements(o, vat)[..n]
  }

  lemma OneMoreOf(all: seq<Element>, n: nat)
    requires n < |all|
    ensures all[..n + 1] == all[..n] + [all[n]]
  {
  }

  lemma BuiltOneMore(items: seq<Element>, o: Order, vat: string, n: nat)
    requires BuiltTo(items, o, vat, n) && n < |o.items|
    ensures BuiltTo(items + [ItemElement(o.items[n], n + 1, Foreign(o), vat)], o, vat, n + 1)
  {
    var all := ItemElements(o, vat);
    assert all[n] == ItemElement(o.items[n], n + 1, Foreign(o), vat);
    OneMoreOf(all, n);
  }

  lemma BuiltAll(items: seq<Element>, o: Order, vat: string)
    requires BuiltTo(items, o, vat, |o.items|)
    ensures items == ItemElements(o, vat) && Conforms(OrderElement(o, items))
  {
    assert ItemElements(o, vat)[..|o.items|] == ItemElements(o, vat);
    BuiltOrderConforms(o, vat);
  }

  lemma ItemIsBuilt(o: Order, vat: string, i: nat)
    requires i < |o.items|
    ensures Conforms(ItemElements(o, vat)[i])
  {
    ItemConforms(o.items[i], i + 1, Foreign(o), vat);
  }

  lemma ItemsAreBuilt(o: Order, vat: string)
    ensures AllConform(ItemElements(o, vat)) && IsNamed(ItemElements(o, vat), Polozka)
  {
    forall i | 0 <= i < |o.items| ensures Conforms(ItemElements(o, vat)[i]) {
      ItemIsBuilt(o, vat, i);
    }
  }

  lemma BuiltOrderConforms(o: Order, vat: string)
    ensures Conforms(BuiltOrder(o, vat))
  {
    ItemsAreBuilt(o, vat);
    OrderConforms(o, ItemElements(o, vat));
  }

  function BuiltOrder(o: Order, vat: string): Element {
    OrderElement(o, ItemElements(o, vat))
  }

  /** One element per order. */
  function OrderElements(orders: seq<Order>, vat: string): seq<Element> {
    seq(|orders|, i requires 0 <= i < |orders| => BuiltOrder(orders[i], vat))
  }

  lemma OrderElementsConform(orders: seq<Order>, vat: string)
    ensures AllConform(OrderElements(orders, vat)) && IsNamed(OrderElements(orders, vat), ObjPrij)
  {
    forall i | 0 <= i < |orders| ensures Conforms(OrderElements(orders, vat)[i]) {
      BuiltOrderConforms(orders[i], vat);
    }
  }

  // ----------------------------------------------------------------- the builder

  /** It fails exactly when the rounding of a foreign total raises. */
  method BuildOrder(o: Order, vat: string) returns (r: Result<Element, ExportError>)
    ensures r.Success? <==> Exportable(o)
    ensures r.Failure? ==> r.error == TotalOutOfRange
    ensures r.Success? ==> r.value == BuiltOrder(o, vat) && Conforms(r.value)
    ensures r.Success? ==> r.value.tag == ObjPrij
  {
    ForeignTotal.TotalRaisesOutOfRange(Priced(o.items));
    if Foreign(o) && TotalOf(o).None? {
      return Failure(TotalOutOfRange);
    }
    var items: seq<Element> := [];
    for i := 0 to |o.items|
      invariant BuiltTo(items, o, vat, i)
    {
      BuiltOneMore(items, o, vat, i);
      items := items + [ItemElement(o.items[i], i + 1, Foreign(o), vat)];
    }
    BuiltAll(items, o, vat);
    r := Success(OrderElement(o, items));
  }

  predicate AllExportable(orders: seq<Order>, n: nat)
    requires n <= |orders|
  {
    forall i | 0 <= i < n :: Exportable(orders[i])
  }

  /** The elements of the first `n` orders, none of whose totals raises. */
  predicate Listed(list: seq<Element>, orders: seq<Order>, vat: string, n: nat) {
    n <= |orders| && AllExportable(orders, n) && list == OrderElements(orders, vat)[..n]
  }

  lemma ListedOneMore(list: seq<Element>, orders: seq<Order>, vat: string, n: nat)
    requires Listed(list, orders, vat, n) && n < |orders| && Exportable(orders[n])
    ensures Listed(list + [BuiltOrder(orders[n], vat)], orders, vat, n + 1)
  {
    OneMoreOf(OrderElements(orders, vat), n);
  }

  method BuildOrders(orders: seq<Order>, vat: string) returns (r: Result<seq<Element>, ExportError>)
    ensures r.Success? <==> AllExportable(orders, |orders|)
    ensures r.Failure? ==> r.error == TotalOutOfRange
    ensures r.Success? ==> r.value == OrderElements(orders, vat)
  {
    var list: seq<Element> := [];
    for i := 0 to |orders|
      invariant Listed(list, orders, vat, i)
    {
      var e := BuildOrder(orders[i], vat);
      if e.Failure? {
        return Failure(e.error);
      }
      ListedOneMore(list, orders, vat, i);
      list := list + [e.value];
    }
    assert OrderElements(orders, vat)[..|orders|] == OrderElements(orders, vat);
    r := Success(list);
  }

  /** The attribute `ICAgendy` is not cleaned, unlike every other text: when it is there, it is XML text
      exactly if all that is kept of the identifier is. */
  lemma AgendaIsXmlTextIff(ico: Option<Text>)
    requires XmlText.Fits(ico, 15).Some?
    ensures IsXmlText(XmlText.Fits(ico, 15).value)
            <==> forall i | 0 <= i < |ico.value| && Kept(ico.value, i) :: IsXmlChar(ico.value[i])
  {
    StrippedIsXmlTextIff(ico.value);
  }

  /** Such an identifier: one control character. */
  lemma ControlCharacterIsExported()
    ensures XmlText.Fits(Some([0x01]), 15) == Some([0x01]) && !IsXmlText([0x01])
  {
    var t: Text := [0x01];
    assert !IsXmlChar(t[0]) && !IsSpace(t[0]);
    StripIsTheKept(t);
    assert Kept(t, 0);
    assert t[0..1] == t;
  }

  /** The whole export: it fails on no orders, on an unknown rate and on a foreign total out of range, and else
      its tree conforms and holds one element per order. */
  method BuildMoneyS3(orders: seq<Order>, ico: Option<Text>, vatRate: string, description: Text)
      returns (r: Result<Document, ExportError>)
    ensures r.Success? <==>
            orders != [] && VatPercent(vatRate).Some? && AllExportable(orders, |orders|)
    ensures r.Failure? ==> r.error == if orders == [] then NothingToExport
                                      else if VatPercent(vatRate).None? then UnsupportedVatRate
                                      else TotalOutOfRange
    ensures r.Success? ==> Conforms(Root(r.value.orders)) && IsXmlText(r.value.description)
    ensures r.Success? ==> r.value.icAgendy == XmlText.Fits(ico, 15)
    ensures r.Success? ==> r.value.orders == OrderElements(orders, VatPercent(vatRate).value)
  {
    if orders == [] {
      return Failure(NothingToExport);
    }
    var percent := VatPercent(vatRate);
    if percent.None? {
      return Failure(UnsupportedVatRate);
    }
    var list := BuildOrders(orders, percent.value);
    if list.Failure? {
      return Failure(list.error);
    }
    OrderElementsConform(orders, percent.value);
    RootConforms(list.value);
    XmlSafeCleans(description);
    r := Success(Document(XmlText.Fits(ico, 15), XmlSafe(description), list.value));
  }
}
