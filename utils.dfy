/**
 * The ENS name utilities of `src/lib/utils.js`: the namehash of EIP-137,
 * normalization through an ENSIP-15 library, the decomposition of a name
 * into label, parent and token ids, and the small predicates and string
 * helpers the components use.
 */
module Utils {
  import opened Wrappers
  import opened JsString
  import opened Numerals
  import opened Keccak

  /** JavaScript truthiness of a string that may be `undefined`: present and non-empty. */
  predicate Truthy(s: Option<string>)
  {
    s.Some? && s.value != ""
  }

  /** A node as `namehash` returns it: `0x` and 64 lower-case hex digits. */
  predicate IsNode(node: string)
  {
    |node| == 66 && node[..2] == "0x" && IsLowerHex(node[2..])
  }

  /**
   * The recursion of EIP-137 on a list of labels, leftmost first: the node
   * of no labels is 32 zero bytes, and the node of `l :: rest` hashes the
   * node of `rest` followed by the hash of `l`.
   */
  function LabelsNode(h: Hasher, labels: seq<string>): Digest
  {
    if labels == [] then ZERO_DIGEST
    else h.keccak256(HexBytes(LabelsNode(h, labels[1..]) + KeccakText(h, labels[0])))
  }

  /** What `namehash(name)` returns: the zero node for an empty or missing name. */
  function NameHash(h: Hasher, name: Option<string>): (node: string)
    ensures IsNode(node)
  {
    "0x" + (if Truthy(name) then LabelsNode(h, Split(name.value, '.')) else ZERO_DIGEST)
  }

  /**
   * `namehash(name)`: builds 32 zero bytes, then folds the dot-separated
   * labels from the last to the first. Nothing is rejected.
   */
  method Namehash(h: Hasher, name: Option<string>) returns (node: string)
    ensures node == NameHash(h, name)
    ensures IsNode(node)
    ensures !Truthy(name) ==> node == "0x" + Zeros(64)
  {
    var acc := "";
    for i := 0 to 32
      invariant acc == Zeros(2 * i)
    {
      MoreZeros(2 * i);
      acc := acc + "00";
    }
    if name.Some? && name.value != "" {
      var labels := Split(name.value, '.');
      // `j` counts the labels still to fold; the source's index `i` is `j - 1`.
      var j := |labels|;
      while j > 0
        invariant 0 <= j <= |labels|
        invariant acc == LabelsNode(h, labels[j..])
      {
        var i := j - 1;
        var labelSha := KeccakText(h, labels[i]);
        acc := h.keccak256(HexBytes(acc + labelSha));
        assert labels[i..][1..] == labels[j..];
        j := i;
      }
      assert labels[0..] == labels;
    }
    node := "0x" + acc;
  }

  /**
   * One step of the recursion, as EIP-137 states it: the node of
   * `label.parent` is the hash of the 64 bytes made of the parent's node and
   * the label's hash.
   */
  lemma NameHashOfChild(h: Hasher, first: string, parent: string)
    requires '.' !in first && parent != ""
    ensures var parentNode := NameHash(h, Some(parent));
            var message := HexBytes(parentNode[2..] + KeccakText(h, first));
            && |message| == 64
            && ToHex(message) == parentNode[2..] + KeccakText(h, first)
            && NameHash(h, Some(first + "." + parent)) == "0x" + h.keccak256(message)
  {
    SplitAfterPiece(first, '.', parent);
    assert first + "." + parent == first + ['.'] + parent;
    var parentNode := NameHash(h, Some(parent));
    var text := parentNode[2..] + KeccakText(h, first);
    assert IsLowerHex(text);
    ToHexOfHexBytes(text);
    assert ([first] + Split(parent, '.'))[1..] == Split(parent, '.');
  }

  /** The two partial functions of the ENSIP-15 library: `ens_normalize` and `ens_beautify`. */
  datatype Normalizer = Normalizer(
    ensNormalize: string -> Result<string, string>,
    ensBeautify: string -> Result<string, string>)

  datatype Normalization = Normalization(
    isNameValid: bool,
    isNameNormalized: bool,
    nameNeedsBeautification: bool,
    normalizedName: string,
    beautifiedName: string,
    normalizationError: string,
    bestDisplayName: string)

  /**
   * `normalize(name)`: the library's verdict on `name`, with the name to
   * show. A throw from either library call ends the `try` block with the
   * fields assigned so far and the thrown message as the error.
   */
  function Normalize(lib: Normalizer, name: string): (r: Normalization)
    ensures r.isNameValid <==> lib.ensNormalize(name).Success?
    ensures !r.isNameValid ==>
      && r.normalizedName == "" && r.beautifiedName == ""
      && !r.isNameNormalized && !r.nameNeedsBeautification
      && r.bestDisplayName == name
      && r.normalizationError == lib.ensNormalize(name).error
    ensures r.isNameValid ==>
      && r.normalizedName == lib.ensNormalize(name).value
      && (r.isNameNormalized <==> name == r.normalizedName)
    ensures r.nameNeedsBeautification <==>
      r.isNameValid && lib.ensBeautify(r.normalizedName).Success?
      && lib.ensBeautify(r.normalizedName).value != r.normalizedName
    ensures r.isNameValid && lib.ensBeautify(r.normalizedName).Success? ==>
      r.beautifiedName == lib.ensBeautify(r.normalizedName).value && r.normalizationError == ""
    ensures r.isNameValid && lib.ensBeautify(r.normalizedName).Failure? ==>
      r.beautifiedName == "" && r.normalizationError == lib.ensBeautify(r.normalizedName).error
    ensures r.bestDisplayName ==
      if r.nameNeedsBeautification then r.beautifiedName
      else if r.isNameValid then r.normalizedName
      else name
  {
    match lib.ensNormalize(name)
    case Failure(e) => Normalization(false, false, false, "", "", e, name)
    case Success(normalized) =>
      match lib.ensBeautify(normalized)
      case Failure(e) => Normalization(true, name == normalized, false, normalized, "", e, normalized)
      case Success(beautified) =>
        var needs := normalized != beautified;
        Normalization(true, name == normalized, needs, normalized, beautified, "",
                      if needs then beautified else normalized)
  }

  /** The library maps every name it accepts to a fixed point of itself. */
  ghost predicate Idempotent(lib: Normalizer)
  {
    forall x :: lib.ensNormalize(x).Success? ==>
      lib.ensNormalize(lib.ensNormalize(x).value) == Success(lib.ensNormalize(x).value)
  }

  /**
   * With an idempotent library, the normalized form of a valid name is valid,
   * already normalized, and normalizes to itself.
   */
  lemma NormalizeTwice(lib: Normalizer, name: string)
    requires Idempotent(lib)
    requires Normalize(lib, name).isNameValid
    ensures var n := Normalize(lib, name).normalizedName;
            Normalize(lib, n).isNameValid && Normalize(lib, n).isNameNormalized
            && Normalize(lib, n).normalizedName == n
            && Normalize(lib, n).bestDisplayName == Normalize(lib, name).bestDisplayName
  {
    assert lib.ensNormalize(name).Success?;
  }

  /** A text with a dot at `i` is what comes before, the dot, and what comes after. */
  lemma JoinAroundFirst(s: string, i: nat)
    requires i < |s| && s[i] == '.'
    ensures s == s[..i] + "." + s[i + 1..]
  {
    assert s == s[..i] + [s[i]] + s[i + 1..];
  }

  /** A JavaScript value handed to `parseName`: a string, or anything else. */
  datatype JsValue = Str(s: string) | NotString

  datatype ParsedName = ParsedName(
    node: string,
    parentName: string,
    parentNode: string,
    firstLabel: string,
    labelhash: string,
    level: nat,
    isETH: bool,
    isETH2LD: bool,
    eth2LDTokenId: string,
    wrappedTokenId: string)

  /** The result `parseName` starts from and returns for a non-string. */
  const EMPTY_PARSED := ParsedName("", "", "", "", "", 0, false, false, "", "")

  /** The name's last label is `eth`: it is `eth`, or it ends in `.eth`. */
  predicate IsEthName(name: string)
  {
    EndsWithPiece(name, '.', "eth")
  }

  /**
   * The record of a string name with node `node`, first label `first`,
   * parent `parent`, `level` labels, and `isETH` when its last label is
   * `eth`: the token ids are the decimal readings of the label hash and of
   * the node.
   */
  function ParsedFrom(h: Hasher, node: string, first: string, parent: string,
                      level: nat, isETH: bool): ParsedName
    requires IsNode(node)
  {
    var labelhash := "0x" + KeccakText(h, first);
    var isETH2LD := isETH && level == 2;
    ParsedName(
      node, parent, NameHash(h, Some(parent)), first, labelhash, level, isETH, isETH2LD,
      if isETH2LD then DecimalString(HexValue(labelhash[2..])) else "",
      DecimalString(HexValue(node[2..])))
  }

  /**
   * What `parseName` computes, stated without `split` and `join`: the label
   * runs up to the first dot, the parent is everything after it, and there
   * is one level per dot plus one.
   */
  function Parsed(h: Hasher, name: JsValue): ParsedName
  {
    match name
    case NotString => EMPTY_PARSED
    case Str(s) =>
      var i := FirstIndex(s, '.');
      ParsedFrom(h, NameHash(h, Some(s)), s[..i], if i < |s| then s[i + 1..] else "",
                 Count(s, '.') + 1, IsEthName(s))
  }

  /** The first piece of `split('.')` is the text before the first dot. */
  lemma FirstDotPiece(s: string)
    ensures Split(s, '.')[0] == s[..FirstIndex(s, '.')]
  {
    SplitUnfold(s, '.');
  }

  /** Joining the pieces after the first gives back the text after the first dot. */
  lemma AfterFirstDot(s: string)
    ensures var i := FirstIndex(s, '.');
            Join(Split(s, '.')[1..], '.') == (if i < |s| then s[i + 1..] else "")
  {
    SplitTail(s, '.');
  }

  /** One piece more than dots, and the last piece is `eth` exactly for `.eth` names. */
  lemma DotPieceCount(s: string)
    ensures var labels := Split(s, '.');
            && |labels| == Count(s, '.') + 1
            && (labels[|labels| - 1] == "eth" <==> IsEthName(s))
  {
    SplitLength(s, '.');
    LastPiece(s, '.', "eth");
  }

  /** The parsed fields read through the pieces `split('.')` yields. */
  lemma ParsedBySplit(h: Hasher, s: string)
    ensures var labels := Split(s, '.');
            var q := Parsed(h, Str(s));
            && q.level == |labels|
            && q.firstLabel == labels[0]
            && q.parentName == Join(labels[1..], '.')
            && (q.isETH <==> labels[|labels| - 1] == "eth")
  {
    FirstDotPiece(s);
    AfterFirstDot(s);
    DotPieceCount(s);
  }

  /** The whole record, as assembled from the pieces `split('.')` yields. */
  lemma ParsedAsSplit(h: Hasher, s: string)
    ensures var labels := Split(s, '.');
            Parsed(h, Str(s)) ==
              ParsedFrom(h, NameHash(h, Some(s)), labels[0], Join(labels[1..], '.'),
                         |labels|, labels[|labels| - 1] == "eth")
  {
    ParsedBySplit(h, s);
  }

  /**
   * `parseName(name)`: the fields of a name, assigned one after the other.
   * For a string nothing inside the `try` block throws (the hash and the
   * hex readers are total on digests), so the `catch` path is never taken.
   */
  method ParseName(h: Hasher, name: JsValue) returns (p: ParsedName)
    ensures p == Parsed(h, name)
  {
    var node, parentName, parentNode, firstLabel, labelhash := "", "", "", "", "";
    var level: nat := 0;
    var isETH, isETH2LD := false, false;
    var eth2LDTokenId, wrappedTokenId := "", "";
    if name.Str? {
      var s := name.s;
      node := Namehash(h, Some(s));
      var labels := Split(s, '.');
      ParsedAsSplit(h, s);
      level := |labels|;
      if level > 0 {
        firstLabel := labels[0];
        labelhash := "0x" + KeccakText(h, firstLabel);
        assert labelhash[2..] == KeccakText(h, firstLabel);
        parentName := Join(labels[1..], '.');
        parentNode := Namehash(h, Some(parentName));
        if labels[level - 1] == "eth" {
          isETH := true;
          if level == 2 {
            isETH2LD := true;
            eth2LDTokenId := DecimalString(HexValue(labelhash[2..]));
          }
        }
        wrappedTokenId := DecimalString(HexValue(node[2..]));
      }
    }
    p := ParsedName(node, parentName, parentNode, firstLabel, labelhash, level,
                    isETH, isETH2LD, eth2LDTokenId, wrappedTokenId);
  }

  /** A non-string parses to the empty result: level 0, every text empty, no flag set. */
  lemma ParsedNotString(h: Hasher)
    ensures var p := Parsed(h, NotString);
            p.level == 0 && !p.isETH && !p.isETH2LD
            && p.node == p.parentName == p.parentNode == p.firstLabel == p.labelhash == ""
            && p.eth2LDTokenId == p.wrappedTokenId == ""
  {
  }

  /** The label has no dot, and with a dot in the name, label, dot and parent spell the name. */
  lemma ParsedSplitsName(h: Hasher, s: string)
    ensures var p := Parsed(h, Str(s));
            && '.' !in p.firstLabel
            && ('.' in s ==> p.firstLabel + "." + p.parentName == s)
            && ('.' !in s ==> p.firstLabel == s && p.parentName == "" && p.level == 1)
  {
    var i := FirstIndex(s, '.');
    if i < |s| {
      JoinAroundFirst(s, i);
    } else {
      assert s[..i] == s;
      NoneCounted(s, '.');
    }
  }

  /**
   * Node and parent node are linked as EIP-137 prescribes: the node hashes
   * the parent's node followed by the label hash, whenever the parent is
   * not empty.
   */
  lemma ParsedNodeFromParent(h: Hasher, s: string)
    requires Parsed(h, Str(s)).parentName != ""
    ensures var p := Parsed(h, Str(s));
            p.node == "0x" + h.keccak256(HexBytes(p.parentNode[2..] + p.labelhash[2..]))
  {
    var i := FirstIndex(s, '.');
    JoinAroundFirst(s, i);
    NameHashOfChild(h, s[..i], s[i + 1..]);
  }

  /**
   * `isETH2LD` holds exactly for a two-label `.eth` name; only then is the
   * registrar token id set, and it reads the label hash as a number. The
   * wrapped token id always reads the node as a number.
   */
  lemma ParsedTokenIds(h: Hasher, s: string)
    ensures var p := Parsed(h, Str(s));
            && (p.isETH2LD <==> p.isETH && p.level == 2)
            && (p.isETH2LD <==> IsEthName(s) && Count(s, '.') == 1)
            && (p.eth2LDTokenId != "" <==> p.isETH2LD)
            && (p.isETH2LD ==>
                  IsCanonicalDecimal(p.eth2LDTokenId)
                  && DecimalValue(p.eth2LDTokenId) == HexValue(p.labelhash[2..]))
            && IsCanonicalDecimal(p.wrappedTokenId)
            && DecimalValue(p.wrappedTokenId) == HexValue(p.node[2..])
  {
    var p := Parsed(h, Str(s));
    DecimalStringValue(HexValue(p.node[2..]));
    if p.isETH2LD {
      DecimalStringValue(HexValue(p.labelhash[2..]));
    }
  }

  /**
   * `containsIgnoreCase(text, value)`: both present and non-empty, and the
   * ASCII-lower-cased `value` occurs in the lower-cased `text`.
   */
  function ContainsIgnoreCase(text: Option<string>, value: Option<string>): (r: bool)
    ensures r <==> Truthy(text) && Truthy(value) && Occurs(Lower(text.value), Lower(value.value))
  {
    Truthy(text) && Truthy(value) && IndexOf(Lower(text.value), Lower(value.value), 0) >= 0
  }

  /** `shortAddr(address)`: `0x1234...abcd` for ten characters or more, else unchanged. */
  function ShortAddr(address: string): (r: string)
    ensures |address| >= 10 ==>
      && |r| == 13
      && r[..6] == address[..6]
      && r[6..9] == "..."
      && r[9..] == address[|address| - 4..]
    ensures |address| < 10 ==> r == address
  {
    if |address| >= 10 then address[..6] + "..." + address[|address| - 4..] else address
  }

  /** The largest value `new Date(ms)` accepts: 8.64e15 ms, i.e. 8.64e12 s. */
  const MAX_EXPIRY_SECONDS := 8640000000000

  /** `hasExpiry(expirySeconds)`: a positive number of seconds within the `Date` range. */
  function HasExpiry(expirySeconds: int): (r: bool)
    ensures r <==> 0 < expirySeconds <= MAX_EXPIRY_SECONDS
  {
    expirySeconds != 0 && expirySeconds > 0 && expirySeconds <= MAX_EXPIRY_SECONDS
  }

  /**
   * `parseExpiry(expirySeconds)`: `None` without an expiry, otherwise the
   * formatter's rendering of the instant in milliseconds.
   */
  function ParseExpiry(expirySeconds: int, format: int -> string): (r: string)
    ensures !HasExpiry(expirySeconds) ==> r == "None"
    ensures HasExpiry(expirySeconds) ==>
      0 < expirySeconds * 1000 <= 1000 * MAX_EXPIRY_SECONDS && r == format(expirySeconds * 1000)
  {
    if HasExpiry(expirySeconds) then format(expirySeconds * 1000) else "None"
  }

  /** A chain as wagmi lists it; only its id matters here. */
  datatype Chain = Chain(id: int)

  /** `validChain(chain, chains)`: some listed chain has this id. */
  function ValidChain(chain: int, chains: seq<Chain>): (r: bool)
    ensures r <==> exists i :: 0 <= i < |chains| && chains[i].id == chain
  {
    if chains == [] then false
    else chains[0].id == chain || ValidChain(chain, chains[1..])
  }
}
