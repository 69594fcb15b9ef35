/**
 * The two URL helpers of the showroom: the IPFS-to-local-path rewrite and
 * the OpenSea testnet link builder. Both are single string expressions; the
 * rewrite rests on JavaScript's `split("/")` followed by `pop()`, which is
 * modelled here by `Split` and `Last`.
 */
module Utils {
  import opened Options

  /** JavaScript truthiness of an optional string: present and non-empty. */
  predicate Truthy(s: Option<string>) {
    s.Some? && s.value != ""
  }

  /**
   * `s.split(sep)`: the pieces between separators, in order. Like
   * JavaScript it always yields at least one piece (`"".split("/")` is
   * `[""]`), and a trailing separator yields a trailing empty piece.
   */
  function Split(s: string, sep: char): (parts: seq<string>)
    ensures |parts| >= 1
    decreases |s|
  {
    if s == [] then [[]]
    else
      var init := Split(s[..|s| - 1], sep);
      var c := s[|s| - 1];
      if c == sep then init + [[]]
      else init[..|init| - 1] + [init[|init| - 1] + [c]]
  }

  /** `parts.join(sep)`, the inverse of `Split`. */
  function Join(parts: seq<string>, sep: char): string
    requires |parts| >= 1
    decreases |parts|
  {
    if |parts| == 1 then parts[0]
    else Join(parts[..|parts| - 1], sep) + [sep] + parts[|parts| - 1]
  }

  /** `pop()` on a non-empty array: its last element. */
  function Last(parts: seq<string>): string
    requires |parts| >= 1
  {
    parts[|parts| - 1]
  }

  /** No piece produced by `Split` contains the separator. */
  lemma {:induction false} SplitPiecesFree(s: string, sep: char)
    ensures forall k :: 0 <= k < |Split(s, sep)| ==> sep !in Split(s, sep)[k]
    decreases |s|
  {
    if s != [] {
      SplitPiecesFree(s[..|s| - 1], sep);
    }
  }

  /** Joining one more piece adds a separator and that piece. */
  lemma JoinSnoc(parts: seq<string>, x: string, sep: char)
    requires |parts| >= 1
    ensures Join(parts + [x], sep) == Join(parts, sep) + [sep] + x
  {
  }

  /** Extending the last piece by a character extends the joined string by it. */
  lemma JoinExtendLast(parts: seq<string>, c: char, sep: char)
    requires |parts| >= 1
    ensures Join(parts[..|parts| - 1] + [parts[|parts| - 1] + [c]], sep) == Join(parts, sep) + [c]
  {
  }

  /** Joining the pieces back with the separator restores the string. */
  lemma {:induction false} JoinSplit(s: string, sep: char)
    ensures Join(Split(s, sep), sep) == s
    decreases |s|
  {
    if s != [] {
      var s' := s[..|s| - 1];
      var c := s[|s| - 1];
      JoinSplit(s', sep);
      assert s == s' + [c];
      if c == sep {
        JoinSnoc(Split(s', sep), [], sep);
      } else {
        JoinExtendLast(Split(s', sep), c, sep);
      }
    }
  }

  /** A string free of the separator splits into itself alone. */
  lemma {:induction false} SplitWithoutSep(b: string, sep: char)
    requires sep !in b
    ensures Split(b, sep) == [b]
    decreases |b|
  {
    if b != [] {
      assert sep !in b[..|b| - 1];
      SplitWithoutSep(b[..|b| - 1], sep);
      assert b == b[..|b| - 1] + [b[|b| - 1]];
    }
  }

  /** Appending a separator and a separator-free piece appends that piece. */
  lemma {:induction false} SplitAppend(a: string, b: string, sep: char)
    requires sep !in b
    ensures Split(a + [sep] + b, sep) == Split(a, sep) + [b]
    decreases |b|
  {
    if b == [] {
      assert a + [sep] + b == a + [sep];
      assert (a + [sep])[..|a + [sep]| - 1] == a;
    } else {
      var b' := b[..|b| - 1];
      var c := b[|b| - 1];
      assert sep !in b';
      SplitAppend(a, b', sep);
      var s := a + [sep] + b;
      assert s[..|s| - 1] == a + [sep] + b';
      assert s[|s| - 1] == c;
      assert b == b' + [c];
    }
  }

  /** Splitting separator-free pieces joined by the separator gives them back. */
  lemma {:induction false} SplitJoin(parts: seq<string>, sep: char)
    requires |parts| >= 1
    requires forall k :: 0 <= k < |parts| ==> sep !in parts[k]
    ensures Split(Join(parts, sep), sep) == parts
    decreases |parts|
  {
    if |parts| == 1 {
      SplitWithoutSep(parts[0], sep);
    } else {
      var init := parts[..|parts| - 1];
      SplitJoin(init, sep);
      SplitAppend(Join(init, sep), parts[|parts| - 1], sep);
      assert parts == init + [parts[|parts| - 1]];
    }
  }

  /** `s.split("/").pop()`: the text after the last slash, or all of `s` when it has none. */
  function LastSegment(s: string): (seg: string)
    ensures '/' !in seg
  {
    SplitPiecesFree(s, '/');
    Last(Split(s, '/'))
  }

  /**
   * The last segment holds no slash, ends `s`, and is either all of `s`
   * (exactly when `s` has no slash) or preceded by a slash in `s`.
   */
  lemma {:induction false} LastSegmentFacts(s: string)
    ensures '/' !in LastSegment(s)
    ensures |LastSegment(s)| <= |s| && s[|s| - |LastSegment(s)|..] == LastSegment(s)
    ensures LastSegment(s) == s <==> '/' !in s
    ensures LastSegment(s) != s ==> s[|s| - |LastSegment(s)| - 1] == '/'
  {
    var parts := Split(s, '/');
    SplitPiecesFree(s, '/');
    JoinSplit(s, '/');
    var seg := Last(parts);
    if |parts| == 1 {
      assert s == seg;
    } else {
      var prefix := Join(parts[..|parts| - 1], '/');
      assert s == prefix + ['/'] + seg;
      assert s[|s| - |seg|..] == seg;
      assert s[|s| - |seg| - 1] == '/';
      assert '/' in s;
    }
  }

  /** The last segment after a separator-free tail is that tail. */
  lemma LastSegmentAfterSlash(a: string, b: string)
    requires '/' !in b
    ensures LastSegment(a + ['/'] + b) == b
  {
    SplitAppend(a, b, '/');
  }

  /**
   * `transformIpfsToPinataUrl`: an absent or empty URI gives "", any other
   * gives "/ipfs/" followed by the URI's last slash-separated segment.
   */
  function TransformIpfsToPinataUrl(ipfsUri: Option<string>): (url: string)
    ensures url == "" <==> !Truthy(ipfsUri)
    ensures Truthy(ipfsUri) ==>
      |url| >= 6 && url[..6] == "/ipfs/" && '/' !in url[6..]
      && |url| - 6 <= |ipfsUri.value|
      && ipfsUri.value[|ipfsUri.value| - (|url| - 6)..] == url[6..]
  {
    if !Truthy(ipfsUri) then ""
    else
      LastSegmentFacts(ipfsUri.value);
      "/ipfs/" + LastSegment(ipfsUri.value)
  }

  /** A URI with no slash is kept whole after the "/ipfs/" prefix. */
  lemma TransformKeepsBareName(s: string)
    requires s != "" && '/' !in s
    ensures TransformIpfsToPinataUrl(Some(s)) == "/ipfs/" + s
  {
    LastSegmentFacts(s);
  }

  /** A URI that does contain a slash loses everything up to its last slash. */
  lemma TransformDropsDirectories(dir: string, name: string)
    requires '/' !in name
    ensures TransformIpfsToPinataUrl(Some(dir + ['/'] + name)) == "/ipfs/" + name
  {
    LastSegmentAfterSlash(dir, name);
  }

  /** Rewriting a rewritten URL changes nothing. */
  lemma TransformIdempotent(ipfsUri: Option<string>)
    ensures TransformIpfsToPinataUrl(Some(TransformIpfsToPinataUrl(ipfsUri)))
         == TransformIpfsToPinataUrl(ipfsUri)
  {
    var url := TransformIpfsToPinataUrl(ipfsUri);
    if url != "" {
      var seg := url[6..];
      assert url == "/ipfs" + ['/'] + seg;
      LastSegmentAfterSlash("/ipfs", seg);
    }
  }

  const OpenseaTestnetUrl: string := "https://testnets.opensea.io"

  /**
   * `getOpenseaTestnetUrl`: the asset page when an NFT id is given, the
   * account (or collection) page otherwise.
   */
  function GetOpenseaTestnetUrl(walletOrContractAddress: string, nftId: Option<string>): (url: string)
    ensures |url| > |OpenseaTestnetUrl| && url[..|OpenseaTestnetUrl| + 1] == OpenseaTestnetUrl + "/"
    ensures Truthy(nftId) ==>
      |url| > |nftId.value| && url[|url| - |nftId.value| - 1..] == "/" + nftId.value
    ensures !Truthy(nftId) ==> url[|OpenseaTestnetUrl| + 1..] == walletOrContractAddress
  {
    if Truthy(nftId) then
      OpenseaTestnetUrl + "/assets/" + walletOrContractAddress + "/" + nftId.value
    else
      OpenseaTestnetUrl + "/" + walletOrContractAddress
  }

  /** The fixed base of every link splits into its scheme, an empty piece and the host. */
  lemma SplitOpenseaTestnetUrl()
    ensures Split(OpenseaTestnetUrl, '/') == ["https:", "", "testnets.opensea.io"]
  {
    var head := ["https:", "", "testnets.opensea.io"];
    assert head[..2][..1] == ["https:"];
    assert Join(head[..2], '/') == "https:/";
    assert Join(head, '/') == OpenseaTestnetUrl;
    SplitJoin(head, '/');
  }

  /**
   * Read back with `split("/")`, a link over a slash-free address and id
   * falls apart into exactly the pieces it was built from, so the two kinds
   * of link are told apart by their number of segments.
   */
  lemma OpenseaUrlSegments(walletOrContractAddress: string, nftId: Option<string>)
    requires '/' !in walletOrContractAddress
    requires nftId.Some? ==> '/' !in nftId.value
    ensures Split(GetOpenseaTestnetUrl(walletOrContractAddress, nftId), '/')
         == ["https:", "", "testnets.opensea.io"]
            + (if Truthy(nftId) then ["assets", walletOrContractAddress, nftId.value]
               else [walletOrContractAddress])
  {
    SplitOpenseaTestnetUrl();
    if Truthy(nftId) {
      var assets := OpenseaTestnetUrl + ['/'] + "assets";
      var account := assets + ['/'] + walletOrContractAddress;
      SplitAppend(OpenseaTestnetUrl, "assets", '/');
      SplitAppend(assets, walletOrContractAddress, '/');
      SplitAppend(account, nftId.value, '/');
      assert GetOpenseaTestnetUrl(walletOrContractAddress, nftId) == account + ['/'] + nftId.value;
    } else {
      SplitAppend(OpenseaTestnetUrl, walletOrContractAddress, '/');
      assert GetOpenseaTestnetUrl(walletOrContractAddress, nftId)
          == OpenseaTestnetUrl + ['/'] + walletOrContractAddress;
    }
  }
}
