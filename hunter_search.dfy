/**
 * The HunterCardTCG search adapter (tiendas/huntercardtcg.py): among the
 * search results, only English ones are eligible; the first eligible foil
 * one wins, else the first eligible one. The query itself only builds the
 * search address. The search page is given as its product blocks; `None`
 * stands for a request that raised.
 */
module HunterSearch {
  import opened Wrappers
  import opened Text
  import opened Seqs
  import opened Offers

  const Store := "HunterCardTCG"

  function SearchUrl(query: string): string {
    "https://www.huntercardtcg.com/?s=" + PlusSpaces(query) + "&post_type=product"
  }

  /**
   * A `li.thunk-woo-product-list` block: the text of its title element, the
   * text of its price amount, and its product link (`None` without the
   * `a.woocommerce-LoopProduct-link` element, `Some(None)` when it has no
   * `href`), each if present.
   */
  datatype Block = Block(title: Option<string>, price: Option<string>, link: Option<Option<string>>)

  /** The title text, stripped. */
  function TitleOf(b: Block): string {
    if b.title.Some? then Strip(b.title.value) else ""
  }

  /** `"English" in texto or "Inglés" in texto` */
  predicate English(texto: string) {
    Contains(texto, "English") || Contains(texto, "Ingl\U{e9}s")
  }

  /** `"Foil" in texto or "foil" in texto` */
  predicate Foil(texto: string) {
    Contains(texto, "Foil") || Contains(texto, "foil")
  }

  /** A block the loop may keep: it has a title and the title is English. */
  function Eligible(): Block -> bool {
    (b: Block) => EligibleBlock(b)
  }

  predicate EligibleBlock(b: Block) {
    b.title.Some? && English(TitleOf(b))
  }

  /** A block the loop stops at: eligible, and the title says foil. */
  function EligibleFoil(): Block -> bool {
    (b: Block) => EligibleFoilBlock(b)
  }

  predicate EligibleFoilBlock(b: Block) {
    b.title.Some? && English(TitleOf(b)) && Foil(TitleOf(b))
  }

  /** `producto_encontrado`: the first eligible foil block, else the first eligible block. */
  function Chosen(blocks: seq<Block>): (k: Option<nat>)
    ensures k.Some? ==> k.value < |blocks| && Eligible()(blocks[k.value])
  {
    Preferred(blocks, Eligible(), EligibleFoil())
  }

  /**
   * Nothing is chosen exactly when no block is eligible; when some eligible
   * block is foil the chosen block is foil and no earlier block is an
   * eligible foil one; otherwise it is the first eligible block.
   */
  lemma ChosenSpec(blocks: seq<Block>)
    ensures Chosen(blocks).None? <==> forall i :: 0 <= i < |blocks| ==> !Eligible()(blocks[i])
    ensures (exists i :: 0 <= i < |blocks| && EligibleFoil()(blocks[i])) ==>
              Chosen(blocks).Some? && EligibleFoil()(blocks[Chosen(blocks).value])
              && forall j :: 0 <= j < Chosen(blocks).value ==> !EligibleFoil()(blocks[j])
    ensures (forall i :: 0 <= i < |blocks| ==> !EligibleFoil()(blocks[i])) && Chosen(blocks).Some? ==>
              forall j :: 0 <= j < Chosen(blocks).value ==> !Eligible()(blocks[j])
  {
    var f := FirstIndex(blocks, EligibleFoil());
    var e := FirstIndex(blocks, Eligible());
    if f == |blocks| && e < |blocks| {
      forall i | 0 <= i < |blocks| ensures !EligibleFoil()(blocks[i]) {
        assert i < f;
      }
    }
  }

  /** `buscar(query)`, given the product blocks of the search page. */
  function Search(query: string, page: Option<seq<Block>>): Offer {
    var fallback := NotFound(Store, query, None, SearchUrl(query));
    if page.None? || |page.value| == 0 then fallback
    else
      match Chosen(page.value)
      case None => fallback
      case Some(k) =>
        var b := page.value[k];
        if b.link.None? || b.link.value.None? then fallback
        else Record(Store, Yes, TitleOf(b), None, if b.price.Some? then Strip(b.price.value) else "-", b.link.value.value)
  }

  /**
   * The offer is "Sí" exactly when the chosen block exists and has a link;
   * its product is then that block's English title, and a foil one whenever
   * some eligible block is foil. Every other outcome is the "No" record.
   */
  lemma SearchSpec(query: string, page: Option<seq<Block>>)
    ensures var o := Search(query, page);
            o.Record? && o.store == Store
            && (o.available == Yes <==>
                  page.Some? && Chosen(page.value).Some?
                  && page.value[Chosen(page.value).value].link.Some?
                  && page.value[Chosen(page.value).value].link.value.Some?)
            && (o.available == Yes ==>
                  English(o.product) && o.product == TitleOf(page.value[Chosen(page.value).value])
                  && ((exists i :: 0 <= i < |page.value| && EligibleFoil()(page.value[i])) ==> Foil(o.product)))
            && (o.available != Yes ==> o == NotFound(Store, query, None, SearchUrl(query)))
  {
    if page.Some? {
      ChosenSpec(page.value);
    }
  }

  /** The loop over the blocks: the first eligible block is kept, the first eligible foil one ends the loop. */
  method Pick(productos: seq<Block>) returns (encontrado: Option<nat>)
    ensures encontrado == Chosen(productos)
  {
    encontrado := ScanPreferred(productos, Eligible(), EligibleFoil());
  }

  /** `buscar`: the empty-page test, the loop, the record of the kept block. */
  method Buscar(query: string, page: Option<seq<Block>>) returns (resultado: Offer)
    ensures resultado == Search(query, page)
  {
    var fallback := NotFound(Store, query, None, SearchUrl(query));
    if page.None? || |page.value| == 0 {
      return fallback;
    }
    var productos := page.value;
    var encontrado := Pick(productos);
    if encontrado.None? {
      return fallback;
    }
    var b := productos[encontrado.value];
    if b.link.None? || b.link.value.None? {
      return fallback;
    }
    var precio := if b.price.Some? then Strip(b.price.value) else "-";
    resultado := Record(Store, Yes, TitleOf(b), None, precio, b.link.value.value);
  }
}
