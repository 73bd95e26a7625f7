/**
 * Decoding of the annotated image that the prediction service returns
 * (src/utils.js): an optional leading data-URL header
 * `data:image/<subtype>;base64,` is removed with the anchored, non-global
 * regular expression /^data:image\/\w+;base64,/ and the remainder is handed
 * to the base64 decoder.
 */
module Utils {
  import opened Wrappers

  type Bytes = seq<bv8>

  const ImageScheme: string := "data:image/"
  const Base64Marker: string := ";base64,"

  /** The class `\w` of JavaScript regular expressions: [A-Za-z0-9_]. */
  predicate IsWordChar(c: char) {
    'A' <= c <= 'Z' || 'a' <= c <= 'z' || '0' <= c <= '9' || c == '_'
  }

  /**
   * The language of the regular expression, anchored at the start: the first
   * `n` characters of `s` are `data:image/`, one or more word characters and
   * `;base64,`.
   */
  predicate IsHeaderMatch(s: string, n: nat) {
    && |ImageScheme| + 1 + |Base64Marker| <= n <= |s|
    && s[..|ImageScheme|] == ImageScheme
    && s[n - |Base64Marker|..n] == Base64Marker
    && forall k :: |ImageScheme| <= k < n - |Base64Marker| ==> IsWordChar(s[k])
  }

  /** The number of consecutive word characters of `s` from index `i` on. */
  function WordRun(s: string, i: nat): (n: nat)
    requires i <= |s|
    decreases |s| - i
    ensures i + n <= |s|
    ensures forall k :: i <= k < i + n ==> IsWordChar(s[k])
    ensures i + n == |s| || !IsWordChar(s[i + n])
  {
    if i == |s| || !IsWordChar(s[i]) then 0 else 1 + WordRun(s, i + 1)
  }

  /**
   * The length of the header at the start of `s`, if there is one. `\w+` is
   * followed by `;`, which is not a word character, so the only candidate is
   * the longest run of word characters after `data:image/`.
   */
  function HeaderLength(s: string): (r: Option<nat>)
    ensures r.Some? ==> IsHeaderMatch(s, r.value)
    ensures forall n: nat :: IsHeaderMatch(s, n) ==> r == Some(n)
  {
    if |s| < |ImageScheme| || s[..|ImageScheme|] != ImageScheme then
      None
    else
      var w := WordRun(s, |ImageScheme|);
      var n := |ImageScheme| + w + |Base64Marker|;
      assert forall m: nat | IsHeaderMatch(s, m) :: m == n by {
        forall m: nat | IsHeaderMatch(s, m) ensures m == n {
          MatchFollowsWordRun(s, m);
        }
      }
      if w > 0 && n <= |s| && s[n - |Base64Marker|..n] == Base64Marker then
        Some(n)
      else
        None
  }

  /** Every match ends exactly where the run of word characters after `data:image/` is followed by `;base64,`. */
  lemma MatchFollowsWordRun(s: string, m: nat)
    requires IsHeaderMatch(s, m)
    ensures m == |ImageScheme| + WordRun(s, |ImageScheme|) + |Base64Marker|
  {
    var w := WordRun(s, |ImageScheme|);
    var end := m - |Base64Marker|;
    assert s[end] == s[end..m][0];
  }

  /**
   * `base64String.replace(/^data:image\/\w+;base64,/, '')`: removes the header
   * when the string starts with one, and leaves the string unchanged otherwise.
   */
  function StripDataUrlHeader(s: string): (r: string)
    ensures forall n: nat :: IsHeaderMatch(s, n) ==> r == s[n..]
    ensures (forall n: nat :: !IsHeaderMatch(s, n)) ==> r == s
  {
    match HeaderLength(s)
    case None => s
    case Some(n) => s[n..]
  }

  /** `base64ToBuffer`: only what is left after the header reaches the decoder. */
  function Base64ToBuffer(s: string, decode: string -> Bytes): (r: Bytes)
    ensures forall n: nat :: IsHeaderMatch(s, n) ==> r == decode(s[n..])
    ensures (forall n: nat :: !IsHeaderMatch(s, n)) ==> r == decode(s)
  {
    decode(StripDataUrlHeader(s))
  }

  /** The header `data:image/<subtype>;base64,` for a subtype. */
  function Header(subtype: string): string
  {
    ImageScheme + subtype + Base64Marker
  }

  /** A header with a non-empty subtype of word characters is removed, and exactly it. */
  lemma StripsHeader(subtype: string, payload: string)
    requires |subtype| > 0
    requires forall k :: 0 <= k < |subtype| ==> IsWordChar(subtype[k])
    ensures StripDataUrlHeader(Header(subtype) + payload) == payload
  {
    var s := Header(subtype) + payload;
    var n := |Header(subtype)|;
    assert s[..|ImageScheme|] == ImageScheme;
    assert s[n - |Base64Marker|..n] == Base64Marker;
    forall k | |ImageScheme| <= k < n - |Base64Marker|
      ensures IsWordChar(s[k])
    {
      assert s[k] == subtype[k - |ImageScheme|];
    }
    assert IsHeaderMatch(s, n);
    assert s[n..] == payload;
  }

  /** Base64ToBuffer decodes the payload after a well-formed header and nothing else. */
  lemma DecodesOnlyPayload(subtype: string, payload: string, decode: string -> Bytes)
    requires |subtype| > 0
    requires forall k :: 0 <= k < |subtype| ==> IsWordChar(subtype[k])
    ensures Base64ToBuffer(Header(subtype) + payload, decode) == decode(payload)
  {
    StripsHeader(subtype, payload);
  }

  /** The expression has no global flag: of two headers in a row, only the first is removed. */
  lemma StripsOnce(first: string, second: string, payload: string)
    requires |first| > 0 && |second| > 0
    requires forall k :: 0 <= k < |first| ==> IsWordChar(first[k])
    requires forall k :: 0 <= k < |second| ==> IsWordChar(second[k])
    ensures StripDataUrlHeader(Header(first) + Header(second) + payload) == Header(second) + payload
  {
    assert Header(first) + Header(second) + payload == Header(first) + (Header(second) + payload);
    StripsHeader(first, Header(second) + payload);
  }

  /** A header with an empty subtype (`data:image/;base64,`) does not match. */
  lemma KeepsEmptySubtype(payload: string)
    ensures StripDataUrlHeader(Header("") + payload) == Header("") + payload
  {
    var s := Header("") + payload;
    forall n: nat | IsHeaderMatch(s, n) ensures false {
      MatchFollowsWordRun(s, n);
    }
  }

  /** A subtype with a character outside `\w`, such as `svg+xml`, does not match. */
  lemma KeepsSvgSubtype(payload: string)
    ensures StripDataUrlHeader(Header("svg+xml") + payload) == Header("svg+xml") + payload
  {
    var s := Header("svg+xml") + payload;
    var i := |ImageScheme|;
    assert s[i] == 's' && s[i + 1] == 'v' && s[i + 2] == 'g' && s[i + 3] == '+';
    assert WordRun(s, i + 3) == 0;
    assert WordRun(s, i) == 3;
    assert s[i + 3] != Base64Marker[0];
    forall n: nat | IsHeaderMatch(s, n) ensures false {
      MatchFollowsWordRun(s, n);
    }
  }

  /**
   * The expression is anchored: a well-formed header preceded by anything that
   * does not itself start with `data:image/` is kept, with what precedes it.
   */
  lemma KeepsUnanchoredHeader(lead: string, subtype: string, payload: string)
    requires |lead| > 0
    requires !(|lead| >= |ImageScheme| && lead[..|ImageScheme|] == ImageScheme)
    ensures StripDataUrlHeader(lead + Header(subtype) + payload) == lead + Header(subtype) + payload
  {
    var s := lead + Header(subtype) + payload;
    var last := |ImageScheme| - 1;
    assert s[..|ImageScheme|] != ImageScheme by {
      if |lead| >= |ImageScheme| {
        assert s[..|ImageScheme|] == lead[..|ImageScheme|];
      } else {
        var j := last - |lead|;
        assert s[last] == Header(subtype)[j] == ImageScheme[j];
        assert '/' !in ImageScheme[..last];
        assert ImageScheme[j] in ImageScheme[..last];
      }
    }
  }
}
