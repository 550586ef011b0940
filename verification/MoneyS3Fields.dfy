/** What an importer reads in the exported tree: every field of an order, its partner and its items in its own
    element, and every number as the number it stands for. */
module MoneyS3Fields {
  import opened DecimalContext
  import opened Digits
  import ForeignTotal
  import opened Money
  import opened MoneyS3
  import opened Numbers
  import opened Wrappers
  import opened XmlText

  /** The text of the only element of its name, or none; no text at all when there is more than one. */
  function TextOf(es: seq<Element>, tag: Tag): (t: Option<Text>) {
    var found := Only(es, tag);
    if |found| == 1 && found[0].children == [] then Some(found[0].text) else None
  }

  /** There is no element of the name. */
  predicate Missing(es: seq<Element>, tag: Tag) {
    Only(es, tag) == []
  }

  /** A field that may be left out: with the given text, cleaned, or not there. */
  predicate Shows(es: seq<Element>, tag: Tag, text: Option<Text>) {
    if text.None? then Missing(es, tag) else TextOf(es, tag) == Some(XmlSafe(text.value))
  }

  /** The text reads back as the number `d`, sign and value. */
  ghost predicate Denotes(t: Option<Text>, d: Decimal) {
    t.Some? && exists s: string :: t.value == Chars(s) && SameNumber(d, ReadNum(s))
  }

  lemma OptionalShows(tag: Tag, text: Option<Text>, es: seq<Element>)
    requires Only(es, tag) == Optional(tag, text)
    ensures Shows(es, tag, text)
  {
  }

  lemma LeafShows(tag: Tag, text: Text, es: seq<Element>)
    requires Only(es, tag) == [Leaf(tag, text)]
    ensures TextOf(es, tag) == Some(XmlSafe(text))
  {
  }

  // ------------------------------------------------------------------- numbers

  predicate IsPlainChar(c: char) {
    IsDigit(c) || c == '.' || c == '-'
  }

  predicate IsPlainText(s: string) {
    forall i | 0 <= i < |s| :: IsPlainChar(s[i])
  }

  lemma FractionalIsPlain(coeff: nat, k: nat)
    ensures IsPlainText(Fractional(coeff, k))
  {
    var s := Pad(coeff, k + 1);
    assert AllDigits(s);
    assert forall i | 0 <= i < |s| :: IsPlainChar(s[i]);
  }

  lemma WholeIsPlain(coeff: nat)
    ensures IsPlainText(Unsigned(coeff, 0))
  {
    var s := DigitsOf(coeff);
    assert AllDigits(s);
    assert Zeros(0) == "" && s + "" == s;
  }

  lemma SignedIsPlain(neg: bool, s: string)
    requires IsPlainText(s)
    ensures IsPlainText((if neg then "-" else "") + s)
  {
  }

  lemma PlainIsPlain(r: Decimal)
    requires r.exp <= 0
    ensures IsPlainText(Plain(r))
  {
    if r.exp < 0 {
      FractionalIsPlain(r.coeff, 0 - r.exp);
    } else {
      WholeIsPlain(r.coeff);
    }
    SignedIsPlain(r.neg, Unsigned(r.coeff, r.exp));
  }

  lemma NumIsPlain(d: Decimal)
    ensures IsPlainText(Num(d))
  {
    NumIsReduced(d);
    PlainIsPlain(Reduce(d));
  }

  lemma PlainIsXmlText(s: string)
    requires IsPlainText(s)
    ensures XmlSafe(Chars(s)) == Chars(s)
  {
    forall i | 0 <= i < |s| ensures IsXmlChar(Chars(s)[i]) {
      assert IsPlainChar(s[i]);
    }
    XmlSafeCleans(Chars(s));
  }

  /** A number's leaf reads back as the number. */
  lemma NumberDenotes(tag: Tag, d: Decimal, es: seq<Element>)
    requires Only(es, tag) == [Leaf(tag, Chars(Num(d)))]
    ensures Denotes(TextOf(es, tag), d)
  {
    NumIsPlain(d);
    PlainIsXmlText(Num(d));
    NumReadsBack(d);
    LeafShows(tag, Chars(Num(d)), es);
  }

  // --------------------------------------------------------------------- items

  lemma ItemParts(it: Item, index: nat, foreign: bool, vat: string, price: Option<Text>)
    requires price == Price(it, !foreign)
    ensures var es := ItemChildren(it, index, foreign, vat);
      && Only(es, PocetMJ) == [Leaf(PocetMJ, Chars(Num(it.quantity)))]
      && Only(es, SazbaDPH) == [Leaf(SazbaDPH, Chars(vat))]
      && Only(es, TypCeny) == [Leaf(TypCeny, Chars("0"))]
      && Only(es, NesklPolozka) == NonStock(it)
  {
    TailParts(it, index, foreign, vat);
    var end := ItemTail(it, index, foreign, vat);
    StartOf(ItemPopis(it), Notes(it), Chars(Num(it.quantity)), price, end);
  }

  lemma StartOf(popis: Text, notes: Option<Text>, amount: Text, price: Option<Text>, end: seq<Element>)
    requires Only(end, PocetMJ) == []
    ensures var es := ItemStart(popis, notes, amount, price, end);
      && Only(es, PocetMJ) == [Leaf(PocetMJ, amount)]
      && Only(es, SazbaDPH) == Only(end, SazbaDPH) && Only(es, TypCeny) == Only(end, TypCeny)
      && Only(es, NesklPolozka) == Only(end, NesklPolozka)
  {
    OnlyInItemStart(popis, notes, amount, price, end, PocetMJ);
    OnlyInItemStart(popis, notes, amount, price, end, SazbaDPH);
    OnlyInItemStart(popis, notes, amount, price, end, TypCeny);
    OnlyInItemStart(popis, notes, amount, price, end, NesklPolozka);
  }

  lemma TailParts(it: Item, index: nat, foreign: bool, vat: string)
    ensures var end := ItemTail(it, index, foreign, vat);
      && Only(end, PocetMJ) == [] && Only(end, SazbaDPH) == [Leaf(SazbaDPH, Chars(vat))]
      && Only(end, TypCeny) == [Leaf(TypCeny, Chars("0"))] && Only(end, NesklPolozka) == NonStock(it)
  {
    EndOf(Chars(vat), Chars(DigitsOf(index)), Price(it, foreign), NonStock(it));
  }

  lemma EndOf(vat: Text, index: Text, foreign: Option<Text>, nonStock: seq<Element>)
    requires IsNamed(nonStock, NesklPolozka)
    ensures var end := ItemEnd(vat, index, foreign, nonStock);
      && Only(end, PocetMJ) == [] && Only(end, SazbaDPH) == [Leaf(SazbaDPH, vat)]
      && Only(end, TypCeny) == [Leaf(TypCeny, Chars("0"))] && Only(end, NesklPolozka) == nonStock
  {
    OnlyInItemEnd(vat, index, foreign, nonStock, PocetMJ);
    OnlyInItemEnd(vat, index, foreign, nonStock, SazbaDPH);
    OnlyInItemEnd(vat, index, foreign, nonStock, TypCeny);
    OnlyInItemEnd(vat, index, foreign, nonStock, NesklPolozka);
  }

  /** The quantity of an item is its own, and a priced item has its own price in the one element for it. */
  lemma ItemNumbers(it: Item, index: nat, foreign: bool, vat: string)
    ensures var es := ItemElement(it, index, foreign, vat).children;
      && Denotes(TextOf(es, PocetMJ), it.quantity)
      && (it.unitPrice.None? ==> Missing(es, Cena) && Missing(es, ItemValuty))
      && (it.unitPrice.Some? && !foreign ==> Denotes(TextOf(es, Cena), it.unitPrice.value) && Missing(es, ItemValuty))
      && (it.unitPrice.Some? && foreign ==> Denotes(TextOf(es, ItemValuty), it.unitPrice.value) && Missing(es, Cena))
  {
    var es := ItemChildren(it, index, foreign, vat);
    ItemParts(it, index, foreign, vat, Price(it, !foreign));
    NumberDenotes(PocetMJ, it.quantity, es);
    StartInItem(it, index, foreign, vat, Cena);
    EndInItem(it, index, foreign, vat, ItemValuty);
    if it.unitPrice.Some? {
      NumberDenotes(if foreign then ItemValuty else Cena, it.unitPrice.value, es);
    }
  }

  /** The VAT rate of every item is the percentage of the rate asked for, and prices are without VAT. */
  lemma ItemRates(it: Item, index: nat, foreign: bool, rate: string)
    requires VatPercent(rate).Some?
    ensures rate in {"none", "high", "low"}
    ensures var es := ItemElement(it, index, foreign, VatPercent(rate).value).children;
      && TextOf(es, SazbaDPH) == Some(Chars(if rate == "none" then "0" else if rate == "high" then "21" else "12"))
      && TextOf(es, TypCeny) == Some(Chars("0"))
  {
    var percent := VatPercent(rate).value;
    ItemParts(it, index, foreign, percent, Price(it, !foreign));
    RateTexts(percent, ItemChildren(it, index, foreign, percent));
  }

  lemma RateTexts(percent: string, es: seq<Element>)
    requires percent == "0" || percent == "21" || percent == "12"
    requires Only(es, SazbaDPH) == [Leaf(SazbaDPH, Chars(percent))] && Only(es, TypCeny) == [Leaf(TypCeny, Chars("0"))]
    ensures TextOf(es, SazbaDPH) == Some(Chars(percent)) && TextOf(es, TypCeny) == Some(Chars("0"))
  {
    PlainIsXmlText(percent);
    PlainIsXmlText("0");
    LeafShows(SazbaDPH, Chars(percent), es);
    LeafShows(TypCeny, Chars("0"), es);
  }

  /** Unit and code of an item, if there are any, stand in its stock card. */
  lemma ItemStockCard(it: Item, index: nat, foreign: bool, vat: string)
    ensures var cards := Only(ItemElement(it, index, foreign, vat).children, NesklPolozka);
      && (cards == [] <==> Clip(it.unit, 10).None? && XmlText.Fits(it.code, 60).None?)
      && (cards != [] ==>
            && |cards| == 1
            && Shows(cards[0].children, MJ, Clip(it.unit, 10))
            && Shows(cards[0].children, Katalog, XmlText.Fits(it.code, 60)))
  {
    ItemParts(it, index, foreign, vat, Price(it, !foreign));
    StockCard(it);
  }

  lemma StockCard(it: Item)
    ensures var es := NonStockLines(it);
      Shows(es, MJ, Clip(it.unit, 10)) && Shows(es, Katalog, XmlText.Fits(it.code, 60))
  {
    var unit, code := Optional(MJ, Clip(it.unit, 10)), Optional(Katalog, XmlText.Fits(it.code, 60));
    OnlyFirst(unit, MJ, code, MJ);
    OnlyFirst(unit, MJ, code, Katalog);
    OnlyOf(code, Katalog, MJ);
    OnlyOf(code, Katalog, Katalog);
    assert unit + [] == unit;
    OptionalShows(MJ, Clip(it.unit, 10), NonStockLines(it));
    OptionalShows(Katalog, XmlText.Fits(it.code, 60), NonStockLines(it));
  }

  // ------------------------------------------------------------------- partner

  lemma AddressParts(street: Option<Text>, city: Option<Text>, zip: Option<Text>)
    ensures var es := Optional(Ulice, street) + (Optional(Misto, city) + Optional(PSC, zip));
      && Only(es, Ulice) == Optional(Ulice, street) && Only(es, Misto) == Optional(Misto, city)
      && Only(es, PSC) == Optional(PSC, zip)
  {
    var a, b, c := Optional(Ulice, street), Optional(Misto, city), Optional(PSC, zip);
    assert IsNamed(a, Ulice) && IsNamed(b, Misto) && IsNamed(c, PSC) && c + [] == c;
    OnlyOfFour(a, Ulice, b, Misto, c, PSC, [], Mena);
  }

  /** The lines of an address are the partner's own street, city and postal code. */
  lemma AddressFields(p: Partner)
    ensures var es := AddressLines(p);
      Shows(es, Ulice, Clip(p.street, 50)) && Shows(es, Misto, Clip(p.city, 40)) && Shows(es, PSC, Clip(p.zip, 10))
  {
    AddressParts(Clip(p.street, 50), Clip(p.city, 40), Clip(p.zip, 10));
    OptionalShows(Ulice, Clip(p.street, 50), AddressLines(p));
    OptionalShows(Misto, Clip(p.city, 40), AddressLines(p));
    OptionalShows(PSC, Clip(p.zip, 10), AddressLines(p));
  }

  /** One of eight groups of elements, each of its own name. */
  lemma OnlyOfEight(a: seq<Element>, ta: Tag, b: seq<Element>, tb: Tag, c: seq<Element>, tc: Tag, d: seq<Element>,
                    td: Tag, e: seq<Element>, te: Tag, f: seq<Element>, tf: Tag, g: seq<Element>, tg: Tag,
                    h: seq<Element>, th: Tag)
    requires IsNamed(a, ta) && IsNamed(b, tb) && IsNamed(c, tc) && IsNamed(d, td)
    requires IsNamed(e, te) && IsNamed(f, tf) && IsNamed(g, tg) && IsNamed(h, th)
    requires ta != tb && ta != tc && ta != td && tb != tc && tb != td && tc != td
    requires te != tf && te != tg && te != th && tf != tg && tf != th && tg != th
    requires ta != te && ta != tf && ta != tg && ta != th && tb != te && tb != tf && tb != tg && tb != th
    requires tc != te && tc != tf && tc != tg && tc != th && td != te && td != tf && td != tg && td != th
    ensures var all := a + (b + (c + (d + (e + (f + (g + h))))));
      && Only(all, ta) == a && Only(all, tb) == b && Only(all, tc) == c && Only(all, td) == d
      && Only(all, te) == e && Only(all, tf) == f && Only(all, tg) == g && Only(all, th) == h
  {
    OnlyOfFour(e, te, f, tf, g, tg, h, th);
    NoneOfFour(e, te, f, tf, g, tg, h, th, {ta, tb, tc, td});
    FirstFour(a, ta, b, tb, c, tc, d, td, e + (f + (g + h)));
    AfterFour(a, ta, b, tb, c, tc, d, td, e + (f + (g + h)), {te, tf, tg, th});
  }

  lemma FirstFour(a: seq<Element>, ta: Tag, b: seq<Element>, tb: Tag, c: seq<Element>, tc: Tag, d: seq<Element>,
                  td: Tag, rest: seq<Element>)
    requires IsNamed(a, ta) && IsNamed(b, tb) && IsNamed(c, tc) && IsNamed(d, td)
    requires ta != tb && ta != tc && ta != td && tb != tc && tb != td && tc != td
    requires Only(rest, ta) == [] && Only(rest, tb) == [] && Only(rest, tc) == [] && Only(rest, td) == []
    ensures var all := a + (b + (c + (d + rest)));
      Only(all, ta) == a && Only(all, tb) == b && Only(all, tc) == c && Only(all, td) == d
  {
    OnlyInFour(a, ta, b, tb, c, tc, d, td, rest, ta);
    OnlyInFour(a, ta, b, tb, c, tc, d, td, rest, tb);
    OnlyInFour(a, ta, b, tb, c, tc, d, td, rest, tc);
    OnlyInFour(a, ta, b, tb, c, tc, d, td, rest, td);
    assert a + [] == a && b + [] == b && c + [] == c && d + [] == d;
  }

  lemma AfterFour(a: seq<Element>, ta: Tag, b: seq<Element>, tb: Tag, c: seq<Element>, tc: Tag, d: seq<Element>,
                  td: Tag, rest: seq<Element>, others: set<Tag>)
    requires IsNamed(a, ta) && IsNamed(b, tb) && IsNamed(c, tc) && IsNamed(d, td)
    requires ta != tb && ta != tc && ta != td && tb != tc && tb != td && tc != td
    requires ta !in others && tb !in others && tc !in others && td !in others
    ensures forall tag | tag in others :: Only(a + (b + (c + (d + rest))), tag) == Only(rest, tag)
  {
    forall tag | tag in others ensures Only(a + (b + (c + (d + rest))), tag) == Only(rest, tag) {
      OnlyInFour(a, ta, b, tb, c, tc, d, td, rest, tag);
    }
  }

  lemma NoneOfFour(a: seq<Element>, ta: Tag, b: seq<Element>, tb: Tag, c: seq<Element>, tc: Tag, d: seq<Element>,
                   td: Tag, others: set<Tag>)
    requires IsNamed(a, ta) && IsNamed(b, tb) && IsNamed(c, tc) && IsNamed(d, td)
    requires ta != tb && ta != tc && ta != td && tb != tc && tb != td && tc != td
    requires ta !in others && tb !in others && tc !in others && td !in others
    ensures forall tag | tag in others :: Only(a + (b + (c + d)), tag) == []
  {
    AfterFour(a, ta, b, tb, c, tc, d, td, [], others);
    assert d + [] == d;
    forall tag | tag in others ensures Only([], tag) == [] {
    }
  }

  lemma OnlyOfFour(a: seq<Element>, ta: Tag, b: seq<Element>, tb: Tag, c: seq<Element>, tc: Tag, d: seq<Element>,
                   td: Tag)
    requires IsNamed(a, ta) && IsNamed(b, tb) && IsNamed(c, tc) && IsNamed(d, td)
    requires ta != tb && ta != tc && ta != td && tb != tc && tb != td && tc != td
    ensures var all := a + (b + (c + d));
      Only(all, ta) == a && Only(all, tb) == b && Only(all, tc) == c && Only(all, td) == d
  {
    FirstFour(a, ta, b, tb, c, tc, d, td, []);
    assert d + [] == d;
  }

  /** The partner's name stands in all three places, its identifiers in theirs, and each of the three addresses has
      its lines, if there are any. */
  lemma PartnerFields(p: Partner)
    ensures var es := FirmLines(p);
      && Shows(es, ObchNazev, Clip(Some(p.company), 255))
      && Shows(es, FaktNazev, Clip(Some(p.company), 255))
      && Shows(es, Nazev, Clip(Some(p.company), 255))
      && Shows(es, ICO, XmlText.Fits(p.ico, 10)) && Shows(es, DIC, XmlText.Fits(p.dic, 20))
      && forall tag | tag in {ObchAdresa, FaktAdresa, Adresa} ::
           Only(es, tag) == if AddressLines(p) == [] then [] else [Element(tag, [], AddressLines(p))]
  {
    var es, company := FirmLines(p), Clip(Some(p.company), 255);
    FirmParts(p, company, XmlText.Fits(p.ico, 10), XmlText.Fits(p.dic, 20));
    OptionalShows(ObchNazev, company, es);
    OptionalShows(FaktNazev, company, es);
    OptionalShows(Nazev, company, es);
    OptionalShows(ICO, XmlText.Fits(p.ico, 10), es);
    OptionalShows(DIC, XmlText.Fits(p.dic, 20), es);
  }

  function FirmList(company: Option<Text>, ico: Option<Text>, dic: Option<Text>, first: seq<Element>,
                    billing: seq<Element>, postal: seq<Element>): seq<Element> {
    Optional(ObchNazev, company) + (first + (Optional(FaktNazev, company)
    + (Optional(ICO, ico) + (Optional(DIC, dic) + (billing + (Optional(Nazev, company) + postal))))))
  }

  lemma FirmListParts(company: Option<Text>, ico: Option<Text>, dic: Option<Text>, first: seq<Element>,
                      billing: seq<Element>, postal: seq<Element>)
    requires IsNamed(first, ObchAdresa) && IsNamed(billing, FaktAdresa) && IsNamed(postal, Adresa)
    ensures var es := FirmList(company, ico, dic, first, billing, postal);
      && Only(es, ObchNazev) == Optional(ObchNazev, company) && Only(es, ObchAdresa) == first
      && Only(es, FaktNazev) == Optional(FaktNazev, company) && Only(es, ICO) == Optional(ICO, ico)
      && Only(es, DIC) == Optional(DIC, dic) && Only(es, FaktAdresa) == billing
      && Only(es, Nazev) == Optional(Nazev, company) && Only(es, Adresa) == postal
  {
    var named, billed, titled := Optional(ObchNazev, company), Optional(FaktNazev, company), Optional(Nazev, company);
    var icos, dics := Optional(ICO, ico), Optional(DIC, dic);
    assert IsNamed(named, ObchNazev) && IsNamed(billed, FaktNazev) && IsNamed(titled, Nazev);
    assert IsNamed(icos, ICO) && IsNamed(dics, DIC);
    OnlyOfEight(named, ObchNazev, first, ObchAdresa, billed, FaktNazev, icos, ICO, dics, DIC, billing, FaktAdresa,
                titled, Nazev, postal, Adresa);
  }

  lemma FirmIsList(p: Partner, company: Option<Text>, ico: Option<Text>, dic: Option<Text>)
    requires company == Clip(Some(p.company), 255) && ico == XmlText.Fits(p.ico, 10) && dic == XmlText.Fits(p.dic, 20)
    ensures FirmLines(p)
         == FirmList(company, ico, dic, Address(ObchAdresa, p), Address(FaktAdresa, p), Address(Adresa, p))
  {
  }

  lemma FirmParts(p: Partner, company: Option<Text>, ico: Option<Text>, dic: Option<Text>)
    requires company == Clip(Some(p.company), 255) && ico == XmlText.Fits(p.ico, 10) && dic == XmlText.Fits(p.dic, 20)
    ensures var es := FirmLines(p);
      && Only(es, ObchNazev) == Optional(ObchNazev, company) && Only(es, ObchAdresa) == Address(ObchAdresa, p)
      && Only(es, FaktNazev) == Optional(FaktNazev, company) && Only(es, ICO) == Optional(ICO, ico)
      && Only(es, DIC) == Optional(DIC, dic) && Only(es, FaktAdresa) == Address(FaktAdresa, p)
      && Only(es, Nazev) == Optional(Nazev, company) && Only(es, Adresa) == Address(Adresa, p)
  {
    FirmIsList(p, company, ico, dic);
    FirmListParts(company, ico, dic, Address(ObchAdresa, p), Address(FaktAdresa, p), Address(Adresa, p));
  }

  // --------------------------------------------------------------------- order

  lemma OrderListParts(popis: Option<Text>, note: Option<Text>, date: Text, due: Option<Text>, firm: seq<Element>,
                       number: Text, total: seq<Element>, items: seq<Element>)
    requires IsNamed(firm, DodOdb) && IsNamed(total, Valuty) && IsNamed(items, Polozka)
    ensures var es := OrderList(popis, note, date, due, firm, number, total, items);
      && Only(es, Popis) == Optional(Popis, popis) && Only(es, Poznamka) == Optional(Poznamka, note)
      && Only(es, Vystaveno) == [Leaf(Vystaveno, date)] && Only(es, VyriditDo) == Optional(VyriditDo, due)
      && Only(es, DodOdb) == firm && Only(es, PrimDoklad) == [Leaf(PrimDoklad, number)]
      && Only(es, Valuty) == total && Only(es, Polozka) == items
  {
    var titles, notes, dues := Optional(Popis, popis), Optional(Poznamka, note), Optional(VyriditDo, due);
    var dates, numbers := [Leaf(Vystaveno, date)], [Leaf(PrimDoklad, number)];
    assert IsNamed(titles, Popis) && IsNamed(notes, Poznamka) && IsNamed(dues, VyriditDo);
    assert IsNamed(dates, Vystaveno) && IsNamed(numbers, PrimDoklad);
    OnlyOfEight(titles, Popis, notes, Poznamka, dates, Vystaveno, dues, VyriditDo, firm, DodOdb, numbers, PrimDoklad,
                total, Valuty, items, Polozka);
  }

  lemma OrderParts(o: Order, items: seq<Element>, title: Option<Text>, number: Text)
    requires IsNamed(items, Polozka) && title == Clip(Some(o.title), 50) && number == Cut(o.number, 20)
    ensures var es := OrderChildren(o, items);
      && Only(es, Popis) == Optional(Popis, title) && Only(es, Poznamka) == Optional(Poznamka, Stripped(o.note))
      && Only(es, Vystaveno) == [Leaf(Vystaveno, Chars(o.orderDate))]
      && Only(es, VyriditDo) == Optional(VyriditDo, DueDate(o)) && Only(es, DodOdb) == Firm(o.partner)
      && Only(es, PrimDoklad) == [Leaf(PrimDoklad, number)] && Only(es, Valuty) == OrderTotal(o)
      && Only(es, Polozka) == items
  {
    OrderListParts(title, Stripped(o.note), Chars(o.orderDate), DueDate(o), Firm(o.partner), number, OrderTotal(o),
                   items);
  }

  /** Title, note, dates and number of an order stand each in its own element, and its partner is its own. */
  lemma OrderFields(o: Order, items: seq<Element>)
    requires IsNamed(items, Polozka)
    ensures var es := OrderElement(o, items).children;
      && Shows(es, Popis, Clip(Some(o.title), 50))
      && Shows(es, Poznamka, if o.note.Some? && Strip(o.note.value) != [] then Some(Strip(o.note.value)) else None)
      && TextOf(es, Vystaveno) == Some(XmlSafe(Chars(o.orderDate)))
      && Shows(es, VyriditDo, if o.dateTo.Some? then Some(Chars(o.dateTo.value)) else None)
      && TextOf(es, PrimDoklad) == Some(XmlSafe(if |o.number| <= 20 then o.number else o.number[..20]))
      && Only(es, DodOdb)
         == if FirmLines(o.partner) == [] then [] else [Element(DodOdb, [], FirmLines(o.partner))]
  {
    var es := OrderChildren(o, items);
    OrderParts(o, items, Clip(Some(o.title), 50), Cut(o.number, 20));
    OptionalShows(Popis, Clip(Some(o.title), 50), es);
    OptionalShows(Poznamka, Stripped(o.note), es);
    LeafShows(Vystaveno, Chars(o.orderDate), es);
    OptionalShows(VyriditDo, DueDate(o), es);
    LeafShows(PrimDoklad, Cut(o.number, 20), es);
  }

  // ----------------------------------------------------------------- the total

  /** An order is at home exactly when its currency is CZK in whatever case. */
  lemma HomeIsCzk(o: Order)
    ensures !Foreign(o) <==>
      && |o.currency| == 3
      && o.currency[0] in {'C', 'c'} && o.currency[1] in {'Z', 'z'} && o.currency[2] in {'K', 'k'}
  {
    var code := Upper(o.currency);
    assert |code| == |o.currency| && forall i | 0 <= i < |code| :: code[i] == UpperChar(o.currency[i]);
    if |code| == 3 {
      assert code == [code[0], code[1], code[2]];
      CapitalOf(o.currency[0], 'C');
      CapitalOf(o.currency[1], 'Z');
      CapitalOf(o.currency[2], 'K');
    }
    assert |"CZK"| == 3 && "CZK"[0] == 'C' && "CZK"[1] == 'Z' && "CZK"[2] == 'K';
  }

  lemma CapitalOf(c: char, capital: char)
    requires 65 <= capital as int <= 90
    ensures UpperChar(c) == capital <==> c == capital || c as int == capital as int + 32
  {
  }

  lemma OnlyOfThree(a: Element, b: Element, c: Element)
    requires a.tag != b.tag && b.tag != c.tag && a.tag != c.tag
    ensures var all := [a] + ([b] + [c]);
      Only(all, a.tag) == [a] && Only(all, c.tag) == [c]
  {
    OnlyOf([c], c.tag, a.tag);
    OnlyOf([c], c.tag, c.tag);
    OnlyFirst([b], b.tag, [c], a.tag);
    OnlyFirst([b], b.tag, [c], c.tag);
    OnlyFirst([a], a.tag, [b] + [c], a.tag);
    OnlyFirst([a], a.tag, [b] + [c], c.tag);
  }

  lemma OnlyInTotal(code: Text, total: Text)
    ensures var es := TotalElement(code, total).children;
      Only(es, Mena) == [Element(Mena, [], [Leaf(Kod, code)])] && Only(es, Celkem) == [Leaf(Celkem, total)]
  {
    OnlyOfThree(Element(Mena, [], [Leaf(Kod, code)]), Leaf(SouhrnDPH, []), Leaf(Celkem, total));
  }

  /** Abroad, an exportable order says its currency and its total; at home it says neither. */
  lemma TotalFields(o: Order, items: seq<Element>)
    requires IsNamed(items, Polozka) && Exportable(o)
    ensures var es := OrderElement(o, items).children;
      if !Foreign(o) then Missing(es, Valuty)
      else
        && |Only(es, Valuty)| == 1
        && var lines := Only(es, Valuty)[0].children;
           && ForeignTotal.Total(Priced(o.items)).Success?
           && Denotes(TextOf(lines, Celkem), ForeignTotal.Total(Priced(o.items)).value)
           && |Only(lines, Mena)| == 1
           && var code := Upper(o.currency);
              TextOf(Only(lines, Mena)[0].children, Kod)
              == Some(XmlSafe(Chars(if |code| <= 4 then code else code[..4])))
  {
    OrderParts(o, items, Clip(Some(o.title), 50), Cut(o.number, 20));
    if Foreign(o) {
      ForeignTotal.TotalRaisesOutOfRange(Priced(o.items));
      TotalLines(Upper(o.currency), TotalOf(o).value);
    }
  }

  lemma CodeShows(code: Text)
    ensures TextOf([Leaf(Kod, code)], Kod) == Some(XmlSafe(code))
  {
    OnlyOf([Leaf(Kod, code)], Kod, Kod);
    LeafShows(Kod, code, [Leaf(Kod, code)]);
  }

  lemma TotalLines(code: string, total: Decimal)
    ensures var lines := TotalElement(Cut(Chars(code), 4), Chars(Num(total))).children;
      && Denotes(TextOf(lines, Celkem), total)
      && |Only(lines, Mena)| == 1
      && TextOf(Only(lines, Mena)[0].children, Kod) == Some(XmlSafe(Chars(if |code| <= 4 then code else code[..4])))
  {
    var cut := Cut(Chars(code), 4);
    OnlyInTotal(cut, Chars(Num(total)));
    NumberDenotes(Celkem, total, TotalElement(cut, Chars(Num(total))).children);
    CodeShows(cut);
    CutChars(code, 4);
  }

  lemma CutChars(s: string, limit: nat)
    ensures Cut(Chars(s), limit) == Chars(if |s| <= limit then s else s[..limit])
  {
  }

  /** An item as it is read from the database: NUMERIC(12, 3) and NUMERIC(12, 2). */
  predicate FromDatabase(it: Item) {
    && it.quantity.exp == -3 && it.quantity.coeff < Pow10(12)
    && (it.unitPrice.Some? ==> it.unitPrice.value.exp == -2 && it.unitPrice.value.coeff < Pow10(12))
  }

  /** Quantity times price, in units of 10^-5. */
  function Worth(it: Item): int {
    if it.unitPrice.None? then 0
    else
      var size := it.quantity.coeff * it.unitPrice.value.coeff;
      if it.quantity.neg == it.unitPrice.value.neg then size else 0 - size
  }

  function WorthOf(items: seq<Item>, n: nat): int
    requires n <= |items|
  {
    if n == 0 then 0 else WorthOf(items, n - 1) + Worth(items[n - 1])
  }

  lemma WorthIsUnits(it: Item, line: ForeignTotal.Line)
    requires FromDatabase(it) && line == ForeignTotal.Line(it.quantity, it.unitPrice)
    ensures ForeignTotal.FromColumns(line) && ForeignTotal.LineUnits(line, -5) == Worth(it)
  {
    if it.unitPrice.Some? {
      UnitsHere(Product(it.quantity, it.unitPrice.value));
    }
  }

  lemma {:induction false} WorthIsExact(items: seq<Item>, n: nat)
    requires n <= |items| && forall i | 0 <= i < |items| :: FromDatabase(items[i])
    requires ForeignTotal.AtLeastAsCoarse(Priced(items), -5)
    ensures ForeignTotal.Exact(Priced(items), n, -5) == WorthOf(items, n)
  {
    if n > 0 {
      WorthIsExact(items, n - 1);
      WorthIsUnits(items[n - 1], Priced(items)[n - 1]);
    }
  }

  /** The total of a stored order is the sum of quantity times price over its items, to the nearest cent. */
  lemma TotalIsTheWorth(o: Order)
    requires |o.items| < 10_000 && forall i | 0 <= i < |o.items| :: FromDatabase(o.items[i])
    ensures var worth := WorthOf(o.items, |o.items|);
      && ForeignTotal.Total(Priced(o.items)).Success?
      && var total := ForeignTotal.Total(Priced(o.items)).value;
         && total.exp == -2 && (total.neg <==> worth < 0)
         && 2 * Abs(1000 * total.coeff - Abs(worth)) <= 1000
         && (2 * Abs(1000 * total.coeff - Abs(worth)) == 1000 ==> total.coeff % 2 == 0)
  {
    var lines := Priced(o.items);
    forall i | 0 <= i < |lines| ensures ForeignTotal.FromColumns(lines[i]) {
      WorthIsUnits(o.items[i], lines[i]);
    }
    FourTens();
    ForeignTotal.ColumnsNeverRaise(lines);
    WorthIsExact(o.items, |o.items|);
    HalfEvenIsNearest(Abs(WorthOf(o.items, |o.items|)), 1000);
  }

  lemma FourTens()
    ensures Pow10(3) == 1000 && Pow10(4) == 10_000
  {
    assert Pow10(1) == 10 && Pow10(2) == 100;
  }

  // ------------------------------------------------------------------ the whole

  /** The items of an exported order are the elements of its items. */
  lemma ExportedItems(o: Order, vat: string, items: seq<Element>)
    requires items == ItemElements(o, vat)
    ensures BuiltOrder(o, vat) == OrderElement(o, items)
    ensures Only(OrderElement(o, items).children, Polozka) == items
  {
    ItemsAreBuilt(o, vat);
    ItemsOfOrder(o, items);
  }

  /** The j-th of them is the order's j-th item, with its place and the rate. */
  lemma ExportedItem(o: Order, vat: string, j: nat)
    requires j < |o.items|
    ensures |ItemElements(o, vat)| == |o.items|
    ensures ItemElements(o, vat)[j] == ItemElement(o.items[j], j + 1, Foreign(o), vat)
  {
  }

  /** And each order of the export is that order. */
  lemma ExportedOrders(orders: seq<Order>, vat: string, i: nat)
    requires i < |orders|
    ensures |OrderElements(orders, vat)| == |orders|
    ensures OrderElements(orders, vat)[i] == OrderElement(orders[i], ItemElements(orders[i], vat))
    ensures IsNamed(ItemElements(orders[i], vat), Polozka)
  {
    ItemsAreBuilt(orders[i], vat);
  }
}
