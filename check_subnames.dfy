/*
 * The subname checker: the NameWrapper fuse tests, the state and expiry tags
 * of a row, the label fallbacks, the paging arithmetic and the `doUpdate`
 * loader that fills the page cache.
 */
module CheckSubnames {
  import opened Wrappers
  import opened Keccak
  import opened Utils

  // ---------------------------------------------------------------------
  // Fuses
  // ---------------------------------------------------------------------

  /** JavaScript `a & b` on non-negative operands, one binary digit at a time. */
  function BitAnd(a: nat, b: nat): (r: nat)
    ensures r <= a && r <= b
    decreases a
  {
    if a == 0 || b == 0 then 0
    else 2 * BitAnd(a / 2, b / 2) + (if a % 2 == 1 && b % 2 == 1 then 1 else 0)
  }

  function Pow2(k: nat): (p: nat)
    ensures p >= 1
  {
    if k == 0 then 1 else 2 * Pow2(k - 1)
  }

  /** Binary digit `k` of `a` is one: the reference reading of a fuse. */
  predicate HasBit(a: nat, k: nat)
  {
    if k == 0 then a % 2 == 1 else HasBit(a / 2, k - 1)
  }

  /** Masking with a power of two keeps exactly that bit. */
  lemma {:induction false} BitAndPow2(a: nat, k: nat)
    ensures BitAnd(a, Pow2(k)) == if HasBit(a, k) then Pow2(k) else 0
  {
    if k > 0 {
      BitAndPow2(a / 2, k - 1);
      assert Pow2(k) / 2 == Pow2(k - 1);
    }
  }

  /** `CANNOT_UNWRAP`, bit 0. */
  const LOCKED_FUSE: nat := 1
  /** `PARENT_CANNOT_CONTROL`, bit 16. */
  const EMANCIPATED_FUSE: nat := 65536

  predicate IsLocked(fuses: nat)
  {
    BitAnd(fuses, LOCKED_FUSE) == LOCKED_FUSE
  }

  predicate IsEmancipated(fuses: nat)
  {
    BitAnd(fuses, EMANCIPATED_FUSE) == EMANCIPATED_FUSE
  }

  /** The two mask tests read bit 0 and bit 16 of the fuses. */
  lemma FuseBits(fuses: nat)
    ensures IsLocked(fuses) <==> HasBit(fuses, 0)
    ensures IsEmancipated(fuses) <==> HasBit(fuses, 16)
  {
    BitAndPow2(fuses, 0);
    assert Pow2(4) == 16;
    assert Pow2(8) == 256;
    assert Pow2(12) == 4096;
    assert Pow2(16) == EMANCIPATED_FUSE;
    BitAndPow2(fuses, 16);
  }

  // ---------------------------------------------------------------------
  // Tags of a row
  // ---------------------------------------------------------------------

  /** `ethers.constants.AddressZero`. */
  const ADDRESS_ZERO: string := "0x" + Zeros(40)

  datatype StateTag = Locked | Emancipated

  datatype ExpiryTag = Expired | ExpiringSoon

  /** What the NameWrapper reports for a subname; the owner already passed through `getAddress`. */
  datatype WrapperData = WrapperData(owner: string, fuses: nat, expiry: int)

  /** A subname as the page cache holds it; the last two fields are absent until loaded. */
  datatype Subdomain = Subdomain(
    id: string,
    labelName: Option<string>,
    labelhash: Option<string>,
    registryOwner: Option<string>,
    wrapperData: Option<WrapperData>)

  /**
   * The state tag: only an owned name gets one, and a locked name is shown
   * as locked whether or not it is also emancipated.
   */
  function StateTagOf(owner: string, fuses: nat): (tag: Option<StateTag>)
    ensures tag == Some(Locked) <==> owner != ADDRESS_ZERO && HasBit(fuses, 0)
    ensures tag == Some(Emancipated) <==>
              owner != ADDRESS_ZERO && !HasBit(fuses, 0) && HasBit(fuses, 16)
    ensures tag == None <==>
              owner == ADDRESS_ZERO || (!HasBit(fuses, 0) && !HasBit(fuses, 16))
  {
    FuseBits(fuses);
    if owner == ADDRESS_ZERO then None
    else if IsLocked(fuses) then Some(Locked)
    else if IsEmancipated(fuses) then Some(Emancipated)
    else None
  }

  /** Ninety days in milliseconds. */
  const DAYS_90_MS: int := 90 * 24 * 60 * 60 * 1000

  /**
   * An expiry tag is considered only for a name with a real expiry whose
   * registry owner is the NameWrapper (`undefined === undefined` included).
   */
  predicate ExpiryConsidered(expiry: int, registryOwner: Option<string>, nameWrapperAddress: Option<string>)
  {
    HasExpiry(expiry) && registryOwner == nameWrapperAddress
  }

  /**
   * The expiry tag at the instant `nowMs`: expired once the expiry has passed
   * and the owner is cleared; expiring soon within ninety days before the
   * expiry for an emancipated name.
   */
  function ExpiryTagOf(w: WrapperData, registryOwner: Option<string>,
                       nameWrapperAddress: Option<string>, nowMs: int): (tag: Option<ExpiryTag>)
    ensures tag == Some(Expired) <==>
              ExpiryConsidered(w.expiry, registryOwner, nameWrapperAddress)
              && w.expiry * 1000 <= nowMs && w.owner == ADDRESS_ZERO
    ensures tag == Some(ExpiringSoon) <==>
              ExpiryConsidered(w.expiry, registryOwner, nameWrapperAddress)
              && nowMs < w.expiry * 1000 <= nowMs + DAYS_90_MS && HasBit(w.fuses, 16)
  {
    FuseBits(w.fuses);
    if !(HasExpiry(w.expiry) && registryOwner == nameWrapperAddress) then None
    else
      var epochMs := w.expiry * 1000;
      if nowMs >= epochMs && w.owner == ADDRESS_ZERO then Some(Expired)
      else if nowMs < epochMs && nowMs + DAYS_90_MS >= epochMs && IsEmancipated(w.fuses) then
        Some(ExpiringSoon)
      else None
  }

  /** An expired name has a cleared owner, so it never carries a state tag too. */
  lemma ExpiredHasNoStateTag(w: WrapperData, registryOwner: Option<string>,
                             nameWrapperAddress: Option<string>, nowMs: int)
    requires ExpiryTagOf(w, registryOwner, nameWrapperAddress, nowMs) == Some(Expired)
    ensures StateTagOf(w.owner, w.fuses).None?
  {
  }

  /** A name expiring soon is emancipated, so an owned one always carries a state tag. */
  lemma ExpiringSoonHasStateTag(w: WrapperData, registryOwner: Option<string>,
                                nameWrapperAddress: Option<string>, nowMs: int)
    requires ExpiryTagOf(w, registryOwner, nameWrapperAddress, nowMs) == Some(ExpiringSoon)
    requires w.owner != ADDRESS_ZERO
    ensures StateTagOf(w.owner, w.fuses).Some?
  {
  }

  // ---------------------------------------------------------------------
  // Labels of a row
  // ---------------------------------------------------------------------

  const LABEL_UNKNOWN := "Label Unknown"

  /**
   * `convertLabelhash`: a label hash of ten characters or more is shown as
   * its four characters after the `0x` and its last four, in brackets;
   * anything else, a missing hash included, as the empty text.
   */
  function ConvertLabelhash(labelhash: Option<string>): (r: string)
    ensures r != "" <==> Truthy(labelhash) && |labelhash.value| >= 10
    ensures r != "" ==>
              var h := labelhash.value;
              |r| == 13 && r[0] == '[' && r[12] == ']' && r[5..8] == "..."
              && r[1..5] == h[2..6] && r[8..12] == h[|h| - 4..]
  {
    if Truthy(labelhash) && |labelhash.value| >= 10 then
      var h := labelhash.value;
      "[" + h[2..6] + "..." + h[|h| - 4..|h|] + "]"
    else ""
  }

  /** The bracketed label hash is the shortened address form without its `0x`. */
  lemma ConvertLabelhashLikeShortAddr(h: string)
    requires |h| >= 10
    ensures ConvertLabelhash(Some(h)) == "[" + ShortAddr(h)[2..] + "]"
  {
    var r := ConvertLabelhash(Some(h));
    var a := ShortAddr(h);
    assert a == h[..6] + "..." + h[|h| - 4..];
    assert a[2..] == h[2..6] + "..." + h[|h| - 4..];
  }

  /** A row as `RecordItemRow` receives it. */
  datatype Row = Row(
    stateTag: Option<StateTag>,
    expiryTag: Option<ExpiryTag>,
    tags: seq<string>,
    value: Option<string>,
    shortValue: string)

  /** The row of one subname, as the rules above define it. */
  function RowOf(sub: Subdomain, nameWrapperAddress: Option<string>, nowMs: int): Row
  {
    var known := Truthy(sub.labelName);
    Row(
      if sub.wrapperData.Some? then StateTagOf(sub.wrapperData.value.owner, sub.wrapperData.value.fuses)
      else None,
      if sub.wrapperData.Some? then
        ExpiryTagOf(sub.wrapperData.value, sub.registryOwner, nameWrapperAddress, nowMs)
      else None,
      if known then [] else [LABEL_UNKNOWN],
      if known then sub.labelName else sub.labelhash,
      if known then sub.labelName.value else ConvertLabelhash(sub.labelhash))
  }

  /**
   * The row builder: fills the state and expiry tags from the fuse masks,
   * then pushes the unknown-label tag and picks the label texts.
   */
  method BuildRow(sub: Subdomain, nameWrapperAddress: Option<string>, nowMs: int) returns (row: Row)
    ensures row == RowOf(sub, nameWrapperAddress, nowMs)
  {
    var stateTag: Option<StateTag> := None;
    var expiryTag: Option<ExpiryTag> := None;
    var tags: seq<string> := [];
    if sub.wrapperData.Some? {
      var w := sub.wrapperData.value;
      var isEmancipated := BitAnd(w.fuses, 65536) == 65536;
      var isLocked := BitAnd(w.fuses, 1) == 1;
      if w.owner != ADDRESS_ZERO {
        if isLocked {
          stateTag := Some(Locked);
        } else if isEmancipated {
          stateTag := Some(Emancipated);
        }
      }
      if HasExpiry(w.expiry) && sub.registryOwner == nameWrapperAddress {
        var epochMs := w.expiry * 1000;
        if nowMs >= epochMs && w.owner == ADDRESS_ZERO {
          expiryTag := Some(Expired);
        } else if nowMs < epochMs && nowMs + DAYS_90_MS >= epochMs && isEmancipated {
          expiryTag := Some(ExpiringSoon);
        }
      }
    }
    if !Truthy(sub.labelName) {
      tags := tags + [LABEL_UNKNOWN];
    }
    var labelValue := if Truthy(sub.labelName) then sub.labelName else sub.labelhash;
    var labelShortValue :=
      if Truthy(sub.labelName) then sub.labelName.value else ConvertLabelhash(sub.labelhash);
    row := Row(stateTag, expiryTag, tags, labelValue, labelShortValue);
  }

  /**
   * The unknown-label tag marks exactly the rows without a label name; a
   * known label is both texts of the row, an unknown one falls back to the
   * label hash in full and in brackets.
   */
  lemma RowLabels(sub: Subdomain, nameWrapperAddress: Option<string>, nowMs: int)
    ensures var row := RowOf(sub, nameWrapperAddress, nowMs);
            && (LABEL_UNKNOWN in row.tags <==> !Truthy(sub.labelName))
            && (Truthy(sub.labelName) ==>
                  row.value == sub.labelName && row.shortValue == sub.labelName.value)
            && (!Truthy(sub.labelName) ==>
                  row.value == sub.labelhash
                  && row.shortValue == ConvertLabelhash(sub.labelhash)
                  && (row.shortValue != "" <==> Truthy(sub.labelhash) && |sub.labelhash.value| >= 10))
  {
  }

  /** The label hash the subgraph reports, `0x` and a digest, shortens to thirteen characters. */
  lemma RowShortLabelhash(sub: Subdomain, nameWrapperAddress: Option<string>, nowMs: int, d: Digest)
    requires !Truthy(sub.labelName) && sub.labelhash == Some("0x" + d)
    ensures RowOf(sub, nameWrapperAddress, nowMs).shortValue == "[" + d[..4] + "..." + d[60..] + "]"
  {
    var h := "0x" + d;
    assert h[2..6] == d[..4];
    assert h[|h| - 4..] == d[60..];
  }

  /** An expired row never shows a state tag. */
  lemma RowTagsConsistent(sub: Subdomain, nameWrapperAddress: Option<string>, nowMs: int)
    ensures var row := RowOf(sub, nameWrapperAddress, nowMs);
            row.expiryTag == Some(Expired) ==> row.stateTag.None?
  {
    var row := RowOf(sub, nameWrapperAddress, nowMs);
    if row.expiryTag == Some(Expired) {
      ExpiredHasNoStateTag(sub.wrapperData.value, sub.registryOwner, nameWrapperAddress, nowMs);
    }
  }

  // ---------------------------------------------------------------------
  // Paging
  // ---------------------------------------------------------------------

  const PAGE_SIZE: nat := 10

  /** `Math.ceil(count / 10)`: the fewest pages of ten that hold `count` subnames. */
  function TotalPages(count: nat): (pages: nat)
    ensures count <= pages * PAGE_SIZE
    ensures pages > 0 ==> (pages - 1) * PAGE_SIZE < count
  {
    (count + 9) / 10
  }

  /** No smaller number of pages holds them all. */
  lemma TotalPagesLeast(count: nat, n: nat)
    requires count <= n * PAGE_SIZE
    ensures TotalPages(count) <= n
  {
  }

  /** The `skip` of a page query: `(page - 1) * limit`. */
  function PageOffset(page: int): (offset: int)
    ensures page >= 1 ==> offset >= 0
    ensures offset % PAGE_SIZE == 0
  {
    (page - 1) * PAGE_SIZE
  }

  /** Index `index` of the listing falls on `page`. */
  predicate OnPage(page: int, index: int)
  {
    PageOffset(page) <= index < PageOffset(page) + PAGE_SIZE
  }

  /** Different pages ask for disjoint ranges of the listing. */
  lemma PagesDisjoint(page1: int, page2: int, index: int)
    requires page1 != page2
    ensures !(OnPage(page1, index) && OnPage(page2, index))
  {
    if page1 < page2 {
      assert PageOffset(page1) + PAGE_SIZE <= PageOffset(page2);
    } else {
      assert PageOffset(page2) + PAGE_SIZE <= PageOffset(page1);
    }
  }

  /** Every subname of the count lies on exactly one page between 1 and the total. */
  lemma IndexOnSomePage(count: nat, index: nat)
    requires index < count
    ensures var page := index / PAGE_SIZE + 1;
            1 <= page <= TotalPages(count) && OnPage(page, index)
  {
    var page := index / PAGE_SIZE + 1;
    assert PageOffset(page) == index / PAGE_SIZE * PAGE_SIZE;
    assert PageOffset(page) <= index < PageOffset(page) + PAGE_SIZE;
  }

  // ---------------------------------------------------------------------
  // Loading a page
  // ---------------------------------------------------------------------

  /** The subgraph's answer to the count query. */
  datatype CountReply = CountThrew | NoCount | Counted(count: nat)

  /** The subgraph's answer to the page query. */
  datatype Listing = ListingThrew | NoSubdomains | Listed(subs: seq<Subdomain>)

  /**
   * The outside world: whether the chain's Registry and NameWrapper contracts
   * can be set up from the configuration, the subgraph's two queries, and the
   * two contract calls per subname (`None`: the call is rejected). The
   * wrapper owner is raw.
   */
  datatype Network = Network(
    contracts: int -> bool,
    subdomainCount: string -> CountReply,
    subdomains: (string, nat, int) -> Listing,
    registryOwner: string -> Option<string>,
    wrapperData: string -> Option<WrapperData>)

  /** The node a valid name is queried under. */
  function QueryNode(h: Hasher, lib: Normalizer, name: string): (node: string)
    ensures node == Parsed(h, Str(Normalize(lib, name).normalizedName)).node
    ensures IsNode(node)
  {
    NameHash(h, Some(Normalize(lib, name).normalizedName))
  }

  /** `const { node } = parseName(normalizedName)`: the namehash of the name. */
  method ParsedNode(h: Hasher, name: string) returns (node: string)
    ensures node == NameHash(h, Some(name))
    ensures IsNode(node)
  {
    var parsed := ParseName(h, Str(name));
    node := parsed.node;
  }

  /** A name and chain the loaders query at all. */
  predicate Queried(lib: Normalizer, chains: seq<Chain>, name: Option<string>, chain: int)
  {
    Truthy(name) && Normalize(lib, name.value).isNameValid && ValidChain(chain, chains)
  }

  /** `doUpdateTotalPages`: the page count, or 0 when nothing is queried, the query throws or has no count. */
  function DoUpdateTotalPages(h: Hasher, lib: Normalizer, net: Network, chains: seq<Chain>,
                              name: Option<string>, chain: int): (pages: nat)
    ensures pages > 0 ==>
              Queried(lib, chains, name, chain)
              && var reply := net.subdomainCount(QueryNode(h, lib, name.value));
                 reply.Counted? && reply.count > 0 && pages == TotalPages(reply.count)
    ensures Queried(lib, chains, name, chain) ==>
              var reply := net.subdomainCount(QueryNode(h, lib, name.value));
              reply.Counted? && reply.count > 0 ==> pages > 0
  {
    if Queried(lib, chains, name, chain) then
      match net.subdomainCount(QueryNode(h, lib, name.value))
      case Counted(count) => TotalPages(count)
      case _ => 0
    else 0
  }

  /** The rows of the page query, `|| []` included, or `None` when it throws. */
  function PageRows(net: Network, node: string, page: int): Option<seq<Subdomain>>
  {
    match net.subdomains(node, PAGE_SIZE, PageOffset(page))
    case ListingThrew => None
    case NoSubdomains => Some([])
    case Listed(subs) => Some(subs)
  }

  /** Both contract calls succeed for every row, and `getAddress` exists if it is ever called. */
  predicate Answered(net: Network, getAddress: Option<string -> string>, subs: seq<Subdomain>)
  {
    && (forall i :: 0 <= i < |subs| ==> net.registryOwner(subs[i].id).Some?)
    && (forall i :: 0 <= i < |subs| ==> net.wrapperData(subs[i].id).Some?)
    && (|subs| == 0 || getAddress.Some?)
  }

  /** Row `i` once the registry owner is merged in. */
  function WithOwner(net: Network, getAddress: string -> string, sub: Subdomain): Subdomain
    requires net.registryOwner(sub.id).Some?
  {
    sub.(registryOwner := Some(getAddress(net.registryOwner(sub.id).value)))
  }

  /** Row `i` once the wrapper data is merged in, its owner checksummed. */
  function WithWrapper(net: Network, getAddress: string -> string, sub: Subdomain): Subdomain
    requires net.wrapperData(sub.id).Some?
  {
    var w := net.wrapperData(sub.id).value;
    sub.(wrapperData := Some(w.(owner := getAddress(w.owner))))
  }

  /** `merged` is `subs` with both contract answers written into every row. */
  predicate Merged(net: Network, getAddress: Option<string -> string>, subs: seq<Subdomain>,
                   merged: seq<Subdomain>)
  {
    && |merged| == |subs|
    && (|subs| > 0 ==> getAddress.Some?)
    && forall i :: 0 <= i < |subs| ==>
         net.registryOwner(subs[i].id).Some? && net.wrapperData(subs[i].id).Some?
         && merged[i] == WithWrapper(net, getAddress.value, WithOwner(net, getAddress.value, subs[i]))
  }

  /**
   * The registry step: all owner calls are awaited together, then each row
   * takes its checksummed owner. Fails when a call is rejected or when
   * `getAddress` is missing and there is a row to apply it to.
   */
  method ApplyRegistryOwners(net: Network, getAddress: Option<string -> string>, subs: seq<Subdomain>)
    returns (ok: bool, merged: seq<Subdomain>)
    ensures ok <==>
              (forall i :: 0 <= i < |subs| ==> net.registryOwner(subs[i].id).Some?)
              && (|subs| == 0 || getAddress.Some?)
    ensures ok ==> |merged| == |subs|
    ensures ok ==> forall i :: 0 <= i < |subs| ==>
                     merged[i] == WithOwner(net, getAddress.value, subs[i])
  {
    var results: seq<string> := [];
    var i := 0;
    while i < |subs|
      invariant 0 <= i <= |subs| && |results| == i
      invariant forall k :: 0 <= k < i ==>
                  net.registryOwner(subs[k].id) == Some(results[k])
    {
      var result := net.registryOwner(subs[i].id);
      if result.None? {
        return false, subs;
      }
      results := results + [result.value];
      i := i + 1;
    }
    merged := subs;
    i := 0;
    while i < |subs|
      invariant 0 <= i <= |subs| && |merged| == |subs|
      invariant i > 0 ==> getAddress.Some?
      invariant forall k :: 0 <= k < i ==> merged[k] == WithOwner(net, getAddress.value, subs[k])
      invariant forall k :: i <= k < |subs| ==> merged[k] == subs[k]
    {
      if getAddress.None? {
        return false, subs;
      }
      merged := merged[i := merged[i].(registryOwner := Some(getAddress.value(results[i])))];
      i := i + 1;
    }
    ok := true;
  }

  /**
   * The wrapper step: all `getData` calls are awaited together, then each row
   * takes the owner (checksummed), fuses and expiry.
   */
  method ApplyWrapperData(net: Network, getAddress: Option<string -> string>, subs: seq<Subdomain>)
    returns (ok: bool, merged: seq<Subdomain>)
    ensures ok <==>
              (forall i :: 0 <= i < |subs| ==> net.wrapperData(subs[i].id).Some?)
              && (|subs| == 0 || getAddress.Some?)
    ensures ok ==> |merged| == |subs|
    ensures ok ==> forall i :: 0 <= i < |subs| ==>
                     merged[i] == WithWrapper(net, getAddress.value, subs[i])
  {
    var results: seq<WrapperData> := [];
    var i := 0;
    while i < |subs|
      invariant 0 <= i <= |subs| && |results| == i
      invariant forall k :: 0 <= k < i ==> net.wrapperData(subs[k].id) == Some(results[k])
    {
      var result := net.wrapperData(subs[i].id);
      if result.None? {
        return false, subs;
      }
      results := results + [result.value];
      i := i + 1;
    }
    merged := subs;
    i := 0;
    while i < |subs|
      invariant 0 <= i <= |subs| && |merged| == |subs|
      invariant i > 0 ==> getAddress.Some?
      invariant forall k :: 0 <= k < i ==> merged[k] == WithWrapper(net, getAddress.value, subs[k])
      invariant forall k :: i <= k < |subs| ==> merged[k] == subs[k]
    {
      if getAddress.None? {
        return false, subs;
      }
      var w := results[i];
      merged := merged[i := merged[i].(wrapperData := Some(WrapperData(getAddress.value(w.owner), w.fuses, w.expiry)))];
      i := i + 1;
    }
    ok := true;
  }

  /**
   * The page of `name` loads: the contracts are set up, the query answers
   * and so does every contract call.
   */
  predicate PageLoads(h: Hasher, lib: Normalizer, net: Network, getAddress: Option<string -> string>,
                      chain: int, name: string, page: int)
  {
    var rows := PageRows(net, QueryNode(h, lib, name), page);
    net.contracts(chain) && rows.Some? && Answered(net, getAddress, rows.value)
  }

  /** `merged` is the page of `name` with both contract answers written into its rows. */
  predicate PageMerged(h: Hasher, lib: Normalizer, net: Network, getAddress: Option<string -> string>,
                       name: string, page: int, merged: seq<Subdomain>)
  {
    var rows := PageRows(net, QueryNode(h, lib, name), page);
    rows.Some? && Merged(net, getAddress, rows.value, merged)
  }

  /**
   * The body of the `try` block: the contract setup, the page query, then
   * the registry and the wrapper steps on its rows; `None` when anything
   * throws.
   */
  method LoadPage(net: Network, getAddress: Option<string -> string>, chain: int, node: string, page: int)
    returns (loaded: Option<seq<Subdomain>>)
    ensures loaded.Some? <==>
              net.contracts(chain) && PageRows(net, node, page).Some?
              && Answered(net, getAddress, PageRows(net, node, page).value)
    ensures loaded.Some? ==> Merged(net, getAddress, PageRows(net, node, page).value, loaded.value)
  {
    if !net.contracts(chain) {
      return None;
    }
    var limit := PAGE_SIZE;
    var offset := (page - 1) * limit;
    var response := net.subdomains(node, limit, offset);
    if response.ListingThrew? {
      return None;
    }
    var subs := if response.Listed? then response.subs else [];
    var ownersOk, withOwners := ApplyRegistryOwners(net, getAddress, subs);
    if !ownersOk {
      return None;
    }
    var wrapperOk, withWrappers := ApplyWrapperData(net, getAddress, withOwners);
    if !wrapperOk {
      return None;
    }
    loaded := Some(withWrappers);
  }

  /** The cached data of the component: loaded flag, success flag, rows per page. */
  class NameData {
    var loaded: bool
    var success: bool
    var subdomains: map<int, seq<Subdomain>>

    /** `defaultNameData()`. */
    constructor ()
      ensures !loaded && !success && subdomains == map[]
    {
      loaded := false;
      success := false;
      subdomains := map[];
    }
  }

  /** The loader tries the page: a name, a positive page and a positive page count. */
  predicate Attempted(name: Option<string>, page: int, totalPages: int)
  {
    Truthy(name) && page > 0 && totalPages > 0
  }

  /**
   * `doUpdate`: starts from the default data; for a valid name on a supported
   * chain it fetches the page, merges both contract answers into its rows,
   * stores them under the page number and marks success; it marks the data
   * loaded whether or not the fetch succeeded.
   */
  method DoUpdate(h: Hasher, lib: Normalizer, net: Network, chains: seq<Chain>,
                  getAddress: Option<string -> string>,
                  name: Option<string>, chain: int, page: int, totalPages: int)
    returns (nameData: NameData)
    ensures fresh(nameData)
    ensures nameData.loaded <==> Attempted(name, page, totalPages) && Queried(lib, chains, name, chain)
    ensures nameData.success ==> nameData.loaded
    ensures nameData.loaded ==>
              (nameData.success <==> PageLoads(h, lib, net, getAddress, chain, name.value, page))
    ensures !nameData.success ==> nameData.subdomains == map[]
    ensures nameData.success ==>
              nameData.subdomains.Keys == {page}
              && PageMerged(h, lib, net, getAddress, name.value, page, nameData.subdomains[page])
  {
    nameData := new NameData();
    if Truthy(name) && page > 0 && totalPages > 0 {
      var normalized := Normalize(lib, name.value);
      if normalized.isNameValid && ValidChain(chain, chains) {
        var node := ParsedNode(h, normalized.normalizedName);
        assert node == QueryNode(h, lib, name.value);
        var loaded := LoadPage(net, getAddress, chain, node, page);
        if loaded.Some? {
          nameData.subdomains := nameData.subdomains[page := loaded.value];
          nameData.success := true;
        }
        nameData.loaded := true;
      }
    }
  }

  /**
   * With `getAddress` missing, as the imports stand, a page with any row
   * never loads successfully, however the network answers.
   */
  lemma MissingGetAddressFailsPage(net: Network, subs: seq<Subdomain>)
    requires |subs| > 0
    ensures !Answered(net, None, subs)
  {
  }

  /**
   * With a `getAddress`, a page loads exactly when every contract call
   * answers, and each loaded row carries both answers, checksummed.
   */
  lemma PageLoadsWithGetAddress(net: Network, getAddress: string -> string, subs: seq<Subdomain>)
    requires forall i :: 0 <= i < |subs| ==> net.registryOwner(subs[i].id).Some?
    requires forall i :: 0 <= i < |subs| ==> net.wrapperData(subs[i].id).Some?
    ensures Answered(net, Some(getAddress), subs)
    ensures forall i :: 0 <= i < |subs| ==>
              var row := WithWrapper(net, getAddress, WithOwner(net, getAddress, subs[i]));
              && row.registryOwner == Some(getAddress(net.registryOwner(subs[i].id).value))
              && row.wrapperData.Some?
              && row.wrapperData.value.owner == getAddress(net.wrapperData(subs[i].id).value.owner)
              && row.id == subs[i].id && row.labelName == subs[i].labelName
              && row.labelhash == subs[i].labelhash
  {
  }
}
