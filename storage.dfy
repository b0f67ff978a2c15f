/** The client's credential store: the access token, the refresh token and the
    serialised user record, kept under three keys of the device's key-value storage. */
module Storage {
  import opened Wrappers

  const AccessTokenKey: string := "access_token"
  const RefreshTokenKey: string := "refresh_token"
  const UserKey: string := "user_data"

  /** AsyncStorage.getItem: the stored string, or null for a missing key. */
  function GetItem(entries: map<string, string>, key: string): Option<string> {
    if key in entries then Some(entries[key]) else None
  }

  /** The three keys are distinct, so writing one never touches another. */
  lemma KeysDistinct()
    ensures AccessTokenKey != RefreshTokenKey && AccessTokenKey != UserKey && RefreshTokenKey != UserKey
  {
    assert AccessTokenKey[0] == 'a' && RefreshTokenKey[0] == 'r' && UserKey[0] == 'u';
  }

  /** `storage`, over the device storage it shares with every other key of the app. */
  class CredentialStore {
    var entries: map<string, string>

    constructor (entries: map<string, string>)
      ensures this.entries == entries
    {
      this.entries := entries;
    }

    /** saveTokens: writes both token keys; every other key, the user record's included,
      keeps its value. */
    method SaveTokens(accessToken: string, refreshToken: string)
      modifies this
      ensures entries == old(entries)[AccessTokenKey := accessToken][RefreshTokenKey := refreshToken]
      ensures GetItem(entries, AccessTokenKey) == Some(accessToken)
      ensures GetItem(entries, RefreshTokenKey) == Some(refreshToken)
      ensures forall k :: k != AccessTokenKey && k != RefreshTokenKey ==> GetItem(entries, k) == GetItem(old(entries), k)
    {
      KeysDistinct();
      entries := entries[AccessTokenKey := accessToken][RefreshTokenKey := refreshToken];
    }

    /** getAccessToken: the stored access token, or null. */
    method GetAccessToken() returns (r: Option<string>)
      ensures r.Some? <==> AccessTokenKey in entries
      ensures r.Some? ==> r.value == entries[AccessTokenKey]
    {
      r := GetItem(entries, AccessTokenKey);
    }

    /** getRefreshToken: the stored refresh token, or null. */
    method GetRefreshToken() returns (r: Option<string>)
      ensures r.Some? <==> RefreshTokenKey in entries
      ensures r.Some? ==> r.value == entries[RefreshTokenKey]
    {
      r := GetItem(entries, RefreshTokenKey);
    }

    /** saveUser: writes only the user record's key; `serialised` is JSON.stringify's text. */
    method SaveUser(serialised: string)
      modifies this
      ensures entries == old(entries)[UserKey := serialised]
      ensures forall k :: k != UserKey ==> GetItem(entries, k) == GetItem(old(entries), k)
    {
      entries := entries[UserKey := serialised];
    }

    /** getUser: null when no record is stored, and also when the stored text is empty,
      which JavaScript treats as false; otherwise the record (left serialised here). */
    method GetUser() returns (r: Option<string>)
      ensures r.Some? <==> UserKey in entries && entries[UserKey] != ""
      ensures r.Some? ==> r.value == entries[UserKey]
    {
      var stored := GetItem(entries, UserKey);
      r := if stored.Some? && stored.value != "" then stored else None;
    }

    /** clearAll: removes the three keys and no other. */
    method ClearAll()
      modifies this
      ensures entries == old(entries) - {AccessTokenKey, RefreshTokenKey, UserKey}
      ensures AccessTokenKey !in entries && RefreshTokenKey !in entries && UserKey !in entries
      ensures forall k :: k !in {AccessTokenKey, RefreshTokenKey, UserKey} ==> GetItem(entries, k) == GetItem(old(entries), k)
    {
      entries := entries - {AccessTokenKey, RefreshTokenKey, UserKey};
    }
  }

  /** A login followed by reads, then a logout followed by reads: the tokens read back are
    the ones saved, a saved user record is read back, and after clearAll every getter
    answers null. The record is non-empty because `JSON.stringify` of a user object
    never yields the empty string. */
  method SessionRoundTrip(store: CredentialStore, accessToken: string, refreshToken: string, serialised: string)
    returns (access: Option<string>, refresh: Option<string>, user: Option<string>,
             accessAfter: Option<string>, refreshAfter: Option<string>, userAfter: Option<string>)
    requires serialised != ""
    modifies store
    ensures access == Some(accessToken) && refresh == Some(refreshToken) && user == Some(serialised)
    ensures accessAfter == None && refreshAfter == None && userAfter == None
  {
    store.SaveTokens(accessToken, refreshToken);
    store.SaveUser(serialised);
    KeysDistinct();
    access := store.GetAccessToken();
    refresh := store.GetRefreshToken();
    user := store.GetUser();
    store.ClearAll();
    accessAfter := store.GetAccessToken();
    refreshAfter := store.GetRefreshToken();
    userAfter := store.GetUser();
  }
}
