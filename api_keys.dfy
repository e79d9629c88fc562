/**
 * The bearer-token check of the worker: the Authorization header must start
 * with "Bearer ", and what follows the first seven characters must equal,
 * verbatim, one of the comma-separated entries of the configured API_KEYS.
 */
module ApiKeys {
  import opened Wrappers
  import opened Strings

  const BearerPrefix := "Bearer "
  const KeySeparator := ','

  /** The entries of API_KEYS; a missing or empty setting (falsy in JavaScript) allows nothing. */
  function AllowList(apiKeys: Option<string>): (keys: seq<string>)
    ensures apiKeys.None? || apiKeys == Some("") ==> keys == []
    ensures apiKeys.Some? && apiKeys.value != "" ==> Join(keys, [KeySeparator]) == apiKeys.value
    ensures forall k :: 0 <= k < |keys| ==> KeySeparator !in keys[k]
  {
    match apiKeys
    case None => []
    case Some(setting) =>
      if setting == "" then []
      else
        JoinSplit(setting, [KeySeparator]);
        SplitPiecesLackSeparator(setting, KeySeparator);
        Split(setting, [KeySeparator])
  }

  /** `validateApiKey`: the header is present, has the bearer prefix, and its token is allowed. */
  predicate ValidateApiKey(authorization: Option<string>, apiKeys: Option<string>)
    ensures ValidateApiKey(authorization, apiKeys) ==>
      && authorization.Some? && StartsWith(authorization.value, BearerPrefix)
      && apiKeys.Some? && apiKeys.value != ""
      && KeySeparator !in authorization.value[|BearerPrefix|..]
  {
    match authorization
    case None => false
    case Some(header) =>
      StartsWith(header, BearerPrefix) && header[7..] in AllowList(apiKeys)
  }

  /**
   * Reference reading of "the token is one entry of the comma-separated list",
   * stated on the list text itself: the token has no comma and is the whole
   * list, its first entry, its last entry, or an entry between two commas.
   */
  predicate Listed(token: string, keys: string) {
    && KeySeparator !in token
    && (|| keys == token
        || StartsWith(keys, token + [KeySeparator])
        || EndsWith(keys, [KeySeparator] + token)
        || Contains(keys, [KeySeparator] + token + [KeySeparator]))
  }

  /** The entries of a comma-separated list are exactly the tokens Listed in it. */
  lemma ListedIffEntry(token: string, keys: string)
    ensures token in Split(keys, [KeySeparator]) <==> Listed(token, keys)
  {
    if token in Split(keys, [KeySeparator]) {
      EntryIsListed(token, keys);
    }
    if Listed(token, keys) {
      ListedIsEntry(token, keys);
    }
  }

  lemma EntryIsListed(token: string, keys: string)
    requires token in Split(keys, [KeySeparator])
    ensures Listed(token, keys)
  {
    var xs := Split(keys, [KeySeparator]);
    var k :| 0 <= k < |xs| && xs[k] == token;
    SplitPiecesLackSeparator(keys, KeySeparator);
    JoinSplit(keys, [KeySeparator]);
    PieceIsListed(xs, k);
  }

  /** A comma-free piece of a list is Listed in the list joined with commas. */
  lemma {:induction false} PieceIsListed(xs: seq<string>, k: nat)
    requires k < |xs| && KeySeparator !in xs[k]
    ensures Listed(xs[k], Join(xs, [KeySeparator]))
    decreases |xs|
  {
    var c := KeySeparator;
    if |xs| == 1 {
    } else if k == 0 {
      var keys := Join(xs, [c]);
      assert keys == xs[0] + [c] + Join(xs[1..], [c]);
      assert keys[..|xs[0]| + 1] == xs[0] + [c];
    } else {
      assert xs[1..][k - 1] == xs[k];
      PieceIsListed(xs[1..], k - 1);
      ListedExtended(xs[k], xs[0], Join(xs[1..], [c]));
    }
  }

  /** A token Listed in a list stays Listed when another entry is put in front. */
  lemma ListedExtended(token: string, x: string, keys: string)
    requires Listed(token, keys)
    ensures Listed(token, x + [KeySeparator] + keys)
  {
    var c := KeySeparator;
    var s := x + [c] + keys;
    if keys == token {
      assert s[|s| - |token| - 1..] == [c] + token;
    } else if StartsWith(keys, token + [c]) {
      assert keys == token + [c] + keys[|token| + 1..];
      assert s == x + ([c] + token + [c]) + keys[|token| + 1..];
      OccursAtJoined(x, [c] + token + [c], keys[|token| + 1..]);
    } else if EndsWith(keys, [c] + token) {
      assert s[|s| - |token| - 1..] == keys[|keys| - |token| - 1..];
    } else {
      ContainsExtended(x + [c], keys, [c] + token + [c]);
    }
  }

  lemma ListedIsEntry(token: string, keys: string)
    requires Listed(token, keys)
    ensures token in Split(keys, [KeySeparator])
  {
    var c := KeySeparator;
    NotContainsWithoutFirst(token, [c]);
    SplitWithoutSeparator(token, [c]);
    if keys == token {
    } else if StartsWith(keys, token + [c]) {
      EntryBefore(token, keys);
    } else if EndsWith(keys, [c] + token) {
      EntryAfter(token, keys);
    } else {
      EntryBetween(token, keys);
    }
  }

  /** A token followed by a comma at the start of the list is an entry. */
  lemma EntryBefore(token: string, keys: string)
    requires Split(token, [KeySeparator]) == [token]
    requires StartsWith(keys, token + [KeySeparator])
    ensures token in Split(keys, [KeySeparator])
  {
    var y := keys[|token| + 1..];
    assert keys == token + [KeySeparator] + y;
    SplitAround(token, KeySeparator, y);
  }

  /** A token preceded by a comma at the end of the list is an entry. */
  lemma EntryAfter(token: string, keys: string)
    requires Split(token, [KeySeparator]) == [token]
    requires EndsWith(keys, [KeySeparator] + token)
    ensures token in Split(keys, [KeySeparator])
  {
    var x := keys[..|keys| - |token| - 1];
    assert keys == x + [KeySeparator] + token;
    SplitAround(x, KeySeparator, token);
    var parts := Split(x, [KeySeparator]);
    assert Split(keys, [KeySeparator]) == parts + [token];
    assert (parts + [token])[|parts|] == token;
  }

  /** A token enclosed by two commas is an entry. */
  lemma EntryBetween(token: string, keys: string)
    requires Split(token, [KeySeparator]) == [token]
    requires Contains(keys, [KeySeparator] + token + [KeySeparator])
    ensures token in Split(keys, [KeySeparator])
  {
    var c := KeySeparator;
    var t := [c] + token + [c];
    var i :| 0 <= i <= |keys| - |t| && OccursAt(keys, t, i);
    OccurrenceSplits(keys, t, i);
    EnclosedEntry(keys[..i], token, keys[i + |t|..]);
  }

  /** In `x,token,y` the comma-free token is an entry. */
  lemma EnclosedEntry(x: string, token: string, y: string)
    requires Split(token, [KeySeparator]) == [token]
    ensures token in Split(x + ([KeySeparator] + token + [KeySeparator]) + y, [KeySeparator])
  {
    var c := KeySeparator;
    assert x + ([c] + token + [c]) + y == x + [c] + (token + [c] + y);
    SplitAround(x, c, token + [c] + y);
    SplitAround(token, c, y);
    assert token in Split(token + [c] + y, [c]);
  }

  /**
   * The whole check, stated without splitting: a key is accepted exactly when
   * the header is "Bearer " followed by a token Listed in a non-empty API_KEYS.
   * In particular a missing header, a header without the exact prefix, and a
   * missing or empty API_KEYS are all rejected.
   */
  lemma ValidateApiKeyIff(authorization: Option<string>, apiKeys: Option<string>)
    ensures ValidateApiKey(authorization, apiKeys) <==>
      && authorization.Some? && StartsWith(authorization.value, BearerPrefix)
      && apiKeys.Some? && apiKeys.value != ""
      && Listed(authorization.value[|BearerPrefix|..], apiKeys.value)
  {
    if authorization.Some? && StartsWith(authorization.value, BearerPrefix) && apiKeys.Some? && apiKeys.value != "" {
      ListedIffEntry(authorization.value[|BearerPrefix|..], apiKeys.value);
    }
  }

  /** For a header built as "Bearer " + token, acceptance depends on the token alone. */
  lemma BearerTokenAccepted(token: string, apiKeys: string)
    ensures ValidateApiKey(Some(BearerPrefix + token), Some(apiKeys)) <==>
      apiKeys != "" && Listed(token, apiKeys)
  {
    var header := BearerPrefix + token;
    assert StartsWith(header, BearerPrefix);
    assert header[7..] == token;
    ValidateApiKeyIff(Some(header), Some(apiKeys));
  }

  /** Entries are compared verbatim: the blank after a comma belongs to the next entry. */
  lemma EntriesAreNotTrimmed()
    ensures !ValidateApiKey(Some("Bearer k2"), Some("k1, k2"))
    ensures ValidateApiKey(Some("Bearer  k2"), Some("k1, k2"))
  {
    var c := KeySeparator;
    assert "k1, k2" == "k1" + [c] + " k2";
    assert c !in "k1" && c !in " k2";
    assert "Bearer k2" == BearerPrefix + "k2";
    assert "Bearer  k2" == BearerPrefix + " k2";
    TwoEntries("k2", "k1", " k2");
    TwoEntries(" k2", "k1", " k2");
  }

  /** Against a list of two comma-free entries, a bearer token is accepted exactly when it equals one of them. */
  lemma TwoEntries(token: string, x: string, y: string)
    requires KeySeparator !in x && KeySeparator !in y
    ensures ValidateApiKey(Some(BearerPrefix + token), Some(x + [KeySeparator] + y)) <==> token == x || token == y
  {
    var c := KeySeparator;
    SplitAround(x, c, y);
    NotContainsWithoutFirst(x, [c]);
    NotContainsWithoutFirst(y, [c]);
    SplitWithoutSeparator(x, [c]);
    SplitWithoutSeparator(y, [c]);
    assert Split(x + [c] + y, [c]) == [x, y];
    var header := BearerPrefix + token;
    assert StartsWith(header, BearerPrefix);
    assert header[7..] == token;
  }
}
