/**
 * Choosing a product for a row.
 *
 * The catalog is the list of `{desc, price}` entries loaded at start-up.
 * When a description is picked, the row's price becomes the price of the
 * first catalog entry with exactly that description, or is cleared when no
 * entry has it. A product typed by hand becomes a new option unless it is
 * blank once surrounding white space is trimmed.
 */
module Selection {
  import opened Wrappers

  /** A catalog entry; the price is in cents. Descriptions need not be unique. */
  datatype Product = Product(desc: string, price: int)

  /** An option the search box offers for a typed term. */
  datatype Tag = Tag(id: string, text: string, newOption: bool)

  /**
   * The characters a JavaScript trim removes: the white-space and
   * line-terminator code points of ECMAScript, U+FEFF and U+00A0 included.
   */
  predicate IsSpace(c: char) {
    c in {'\t', '\n', '\U{000B}', '\U{000C}', '\r', ' ', '\U{00A0}', '\U{1680}',
          '\U{2028}', '\U{2029}', '\U{202F}', '\U{205F}', '\U{3000}', '\U{FEFF}'}
    || ('\U{2000}' <= c <= '\U{200A}')
  }

  /** `s` without its leading white space. */
  function TrimStart(s: string): (r: string)
    ensures |r| <= |s| && r == s[|s| - |r|..]
    ensures forall j :: 0 <= j < |s| - |r| ==> IsSpace(s[j])
    ensures r == [] || !IsSpace(r[0])
  {
    if s != [] && IsSpace(s[0]) then TrimStart(s[1..]) else s
  }

  /** `s` without its trailing white space. */
  function TrimEnd(s: string): (r: string)
    ensures |r| <= |s| && r == s[..|r|]
    ensures forall j :: |r| <= j < |s| ==> IsSpace(s[j])
    ensures r == [] || !IsSpace(r[|r| - 1])
  {
    if s != [] && IsSpace(s[|s| - 1]) then TrimEnd(s[..|s| - 1]) else s
  }

  /** `r` is `s[k..k + |r|]` and everything of `s` around it is white space. */
  predicate IsCoreOf(s: string, k: int, r: string) {
    0 <= k <= |s| - |r| && r == s[k..k + |r|]
    && (forall j :: 0 <= j < k ==> IsSpace(s[j]))
    && (forall j :: k + |r| <= j < |s| ==> IsSpace(s[j]))
  }

  /**
   * `$.trim(s)`: the part of `s` between its leading and its trailing white
   * space; it is empty exactly when `s` is all white space.
   */
  function Trim(s: string): (r: string)
    ensures r == [] <==> forall j :: 0 <= j < |s| ==> IsSpace(s[j])
    ensures r != [] ==> !IsSpace(r[0]) && !IsSpace(r[|r| - 1])
    ensures exists k :: IsCoreOf(s, k, r)
  {
    TrimCore(s);
    TrimEnd(TrimStart(s))
  }

  /** Trimming both ends leaves a slice of `s` whose margins are white space. */
  lemma TrimCore(s: string)
    ensures IsCoreOf(s, |s| - |TrimStart(s)|, TrimEnd(TrimStart(s)))
  {
    var t := TrimStart(s);
    CoreOfSlices(s, |s| - |t|, t, TrimEnd(t));
  }

  /** Cutting white space off the front and then off the back of what is left leaves a core. */
  lemma CoreOfSlices(s: string, k: nat, t: string, r: string)
    requires k <= |s| && t == s[k..] && |r| <= |t| && r == t[..|r|]
    requires forall j :: 0 <= j < k ==> IsSpace(s[j])
    requires forall j :: |r| <= j < |t| ==> IsSpace(t[j])
    ensures IsCoreOf(s, k, r)
  {
    forall j | k + |r| <= j < |s|
      ensures IsSpace(s[j])
    {
      assert s[j] == t[j - k];
    }
    assert r == s[k..k + |r|];
  }

  /** Trimming twice gives what trimming once gives. */
  lemma TrimIdempotent(s: string)
    ensures Trim(Trim(s)) == Trim(s)
  {
  }

  /**
   * The `createTag` rule: a typed term that is blank after trimming offers
   * nothing; otherwise the new option's id and text are both the trimmed
   * term, which is not blank.
   */
  function CreateTag(term: string): (r: Option<Tag>)
    ensures r.None? <==> forall j :: 0 <= j < |term| ==> IsSpace(term[j])
    ensures r.Some? ==> r.value.id == r.value.text == Trim(term) && r.value.newOption
    ensures r.Some? ==> r.value.text != [] && !IsSpace(r.value.text[0])
  {
    var t := Trim(term);
    if t == [] then None else Some(Tag(t, t, true))
  }

  /** Entry `j` is the first of the catalog whose description is `text`. */
  predicate IsFirstMatch(catalog: seq<Product>, text: string, j: int) {
    0 <= j < |catalog| && catalog[j].desc == text
    && forall k :: 0 <= k < j ==> catalog[k].desc != text
  }

  /** `productsDB.find(p => p.desc === text)`, as the index of the entry found. */
  function FirstMatch(catalog: seq<Product>, text: string): (r: Option<nat>)
    ensures r.Some? ==> IsFirstMatch(catalog, text, r.value)
    ensures r.None? ==> forall j :: 0 <= j < |catalog| ==> catalog[j].desc != text
  {
    if catalog == [] then None
    else if catalog[0].desc == text then Some(0)
    else match FirstMatch(catalog[1..], text)
      case None => None
      case Some(k) => Some(k + 1)
  }

  /**
   * The price the `select2:select` handler puts into the row: that of the
   * first entry whose description is the selected text, or an empty price
   * when no entry has it.
   */
  function ResolvePrice(catalog: seq<Product>, text: string): (price: Option<int>)
    ensures price.None? <==> forall j :: 0 <= j < |catalog| ==> catalog[j].desc != text
    ensures forall j :: IsFirstMatch(catalog, text, j) ==> price == Some(catalog[j].price)
  {
    match FirstMatch(catalog, text)
    case None => None
    case Some(j) =>
      assert forall j' :: IsFirstMatch(catalog, text, j') ==> j' == j;
      Some(catalog[j].price)
  }

  /** Entries after the first match, duplicates included, never decide the price. */
  lemma ResolvePriceFirstWins(catalog: seq<Product>, more: seq<Product>, text: string)
    requires exists j :: 0 <= j < |catalog| && catalog[j].desc == text
    ensures ResolvePrice(catalog + more, text) == ResolvePrice(catalog, text)
  {
    var j :| 0 <= j < |catalog| && catalog[j].desc == text;
    var r := FirstMatch(catalog, text);
    assert (catalog + more)[r.value] == catalog[r.value];
  }
}
