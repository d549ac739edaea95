/**
 * The account store: the signed-in user's email and the handling of the
 * redirect URL an email link opens, whose fragment carries the session
 * tokens and the link type. The authentication service (reading and
 * setting the session) is an input; the auth dialog is a dialog
 * controller with a view name.
 */
module AccountStore {
  import opened Wrappers
  import opened Strings
  import opened DialogController

  const ACCESS_TOKEN: string := "access_token"
  const REFRESH_TOKEN: string := "refresh_token"
  const TYPE: string := "type"
  const RECOVERY: string := "recovery"
  const RESET_PASSWORD: string := "resetPassword"
  /** the callback the reset view confirms with: update the user's password */
  const UPDATE_PASSWORD: Callback := Callback("updateUser")

  /** The tokens handed to the session; `None` is a key given without a
      value (undefined). */
  datatype Tokens = Tokens(accessToken: Option<string>, refreshToken: Option<string>)

  /** What the fragment yields: the tokens and the link type. */
  datatype Parsed = Parsed(tokens: Tokens, linkType: Option<string>)

  /** `urlParams.replace("#", "").split("&")`: the first "#" is dropped. */
  function KeyValues(urlParams: string): (r: seq<string>)
    ensures |r| >= 1
  {
    Split(ReplaceFirst(urlParams, "#", ""), '&')
  }

  /** The key of a pair: the text before its first "=". */
  function Key(keyValue: string): string {
    Split(keyValue, '=')[0]
  }

  /** The value of a pair: the text between its first and second "=", or
      nothing without an "=". */
  function Value(keyValue: string): Option<string> {
    var parts := Split(keyValue, '=');
    if |parts| > 1 then Some(parts[1]) else None
  }

  /** A pair without "=" is all key and has no value. */
  lemma NoEquals(keyValue: string)
    requires '=' !in keyValue
    ensures Key(keyValue) == keyValue && Value(keyValue).None?
  {
    SplitWithoutSeparator(keyValue, '=');
  }

  /** A pair `k=v` or `k=v=rest` has key `k` and value `v`. */
  lemma PairParts(k: string, v: string, rest: string)
    requires '=' !in k && '=' !in v
    ensures Key(k + "=" + v) == k && Value(k + "=" + v) == Some(v)
    ensures Key(k + "=" + v + "=" + rest) == k && Value(k + "=" + v + "=" + rest) == Some(v)
  {
    SplitTwo(k, v, '=');
    assert k + "=" + v == k + ['='] + v;
    SplitAfterPart(k, '=', v + "=" + rest);
    SplitAfterPart(v, '=', rest);
    assert k + "=" + v + "=" + rest == k + ['='] + (v + ['='] + rest);
  }

  /** The value of the last pair with the key, if some pair has it. */
  function LastValue(keyValues: seq<string>, key: string): (r: Option<Option<string>>)
    decreases |keyValues|
  {
    if |keyValues| == 0 then None
    else
      var last := keyValues[|keyValues| - 1];
      if Key(last) == key then Some(Value(last)) else LastValue(keyValues[..|keyValues| - 1], key)
  }

  /** The last pair wins: a found value is that of a pair with the key and
      no later pair has the key; nothing found means no pair has it. */
  lemma {:induction false} LastValueSpec(keyValues: seq<string>, key: string)
    ensures LastValue(keyValues, key).None? <==> forall i :: 0 <= i < |keyValues| ==> Key(keyValues[i]) != key
    ensures LastValue(keyValues, key).Some? ==> exists i :: (
      0 <= i < |keyValues| && Key(keyValues[i]) == key
      && LastValue(keyValues, key).value == Value(keyValues[i])
      && forall j :: i < j < |keyValues| ==> Key(keyValues[j]) != key)
    decreases |keyValues|
  {
    if |keyValues| > 0 {
      var n := |keyValues| - 1;
      var init := keyValues[..n];
      LastValueSpec(init, key);
      if Key(keyValues[n]) != key {
        assert forall i :: 0 <= i < n ==> init[i] == keyValues[i];
        if LastValue(init, key).Some? {
          var i :| 0 <= i < n && Key(init[i]) == key
            && LastValue(init, key).value == Value(init[i])
            && forall j :: i < j < n ==> Key(init[j]) != key;
          assert keyValues[i] == init[i];
        }
      }
    }
  }

  /** A missing key keeps its default. */
  function OrDefault(v: Option<Option<string>>, default: Option<string>): Option<string> {
    if v.Some? then v.value else default
  }

  /** What the loop leaves in a variable that starts at `default` and takes
      the value of each pair with the key: the value of the last such pair,
      or the default when no pair has the key. */
  predicate LastWins(keyValues: seq<string>, key: string, default: Option<string>, v: Option<string>) {
    if forall i :: 0 <= i < |keyValues| ==> Key(keyValues[i]) != key then v == default
    else exists i :: (0 <= i < |keyValues| && Key(keyValues[i]) == key && v == Value(keyValues[i])
                      && forall j :: i < j < |keyValues| ==> Key(keyValues[j]) != key)
  }

  /** The tokens and type of a fragment, as `parseURL` reads them: each
      starts as "" and the last pair with its key wins. */
  function ParsedParams(urlParams: string): (r: Parsed)
    ensures var kvs := KeyValues(urlParams);
      LastWins(kvs, ACCESS_TOKEN, Some(""), r.tokens.accessToken)
      && LastWins(kvs, REFRESH_TOKEN, Some(""), r.tokens.refreshToken)
      && LastWins(kvs, TYPE, Some(""), r.linkType)
  {
    var kvs := KeyValues(urlParams);
    LastValueSpec(kvs, ACCESS_TOKEN);
    LastValueSpec(kvs, REFRESH_TOKEN);
    LastValueSpec(kvs, TYPE);
    Parsed(Tokens(OrDefault(LastValue(kvs, ACCESS_TOKEN), Some("")),
                  OrDefault(LastValue(kvs, REFRESH_TOKEN), Some(""))),
           OrDefault(LastValue(kvs, TYPE), Some("")))
  }

  /** A fragment "#p1&p2" has the pairs p1 and p2. */
  lemma TwoPairs(p1: string, p2: string)
    requires '&' !in p1 && '&' !in p2
    ensures KeyValues("#" + p1 + "&" + p2) == [p1, p2]
  {
    var s := "#" + p1 + "&" + p2;
    assert StartsWith(s, "#");
    assert ReplaceFirst(s, "#", "") == p1 + ['&'] + p2;
    SplitTwo(p1, p2, '&');
  }

  /** The last pair of two with the key. */
  lemma LastOfTwo(p1: string, p2: string, key: string)
    ensures LastValue([p1, p2], key)
      == if Key(p2) == key then Some(Value(p2)) else if Key(p1) == key then Some(Value(p1)) else None
  {
    assert [p1, p2][..1] == [p1] && [p1][..0] == [];
    assert LastValue([p1], key) == if Key(p1) == key then Some(Value(p1)) else LastValue([], key);
  }

  /** A fragment of an access token pair and a refresh token pair yields
      those tokens and an empty type. */
  lemma TwoTokens(a: string, b: string)
    requires '=' !in a && '=' !in b && '&' !in a && '&' !in b
    ensures ParsedParams("#" + ACCESS_TOKEN + "=" + a + "&" + REFRESH_TOKEN + "=" + b)
      == Parsed(Tokens(Some(a), Some(b)), Some(""))
  {
    var p1 := ACCESS_TOKEN + "=" + a;
    var p2 := REFRESH_TOKEN + "=" + b;
    TwoPairs(p1, p2);
    assert "#" + ACCESS_TOKEN + "=" + a + "&" + REFRESH_TOKEN + "=" + b == "#" + p1 + "&" + p2;
    PairParts(ACCESS_TOKEN, a, "");
    PairParts(REFRESH_TOKEN, b, "");
    LastOfTwo(p1, p2, ACCESS_TOKEN);
    LastOfTwo(p1, p2, REFRESH_TOKEN);
    LastOfTwo(p1, p2, TYPE);
  }

  class Account {
    var initialized: bool
    var email: string
    var authView: string
    var authDialog: Dialog

    constructor()
      ensures !initialized && email == "" && authView == ""
      ensures fresh(authDialog) && !authDialog.visible
    {
      initialized := false;
      email := "";
      authView := "";
      authDialog := new Dialog();
    }

    /** `isAuthenticated`: a user is signed in iff there is an email. */
    predicate IsAuthenticated()
      reads this
    {
      email != ""
    }

    /** `loadState()` with the session's email, if any: the email is
      cleared first, so no session means signed out. */
    method LoadState(sessionEmail: Option<string>)
      modifies this`email, this`initialized
      ensures initialized
      ensures IsAuthenticated() <==> sessionEmail.Some? && sessionEmail.value != ""
      ensures IsAuthenticated() ==> email == sessionEmail.value
    {
      email := "";
      if sessionEmail.Some? && sessionEmail.value != "" {
        email := sessionEmail.value;
      }
      initialized := true;
    }

    /** The loop of `parseURL` over the pairs. */
    method ParseTokens(urlParams: string) returns (tokens: Tokens, linkType: Option<string>)
      ensures Parsed(tokens, linkType) == ParsedParams(urlParams)
    {
      var keyValues := KeyValues(urlParams);
      tokens := Tokens(Some(""), Some(""));
      linkType := Some("");
      for i := 0 to |keyValues|
        invariant tokens.accessToken == OrDefault(LastValue(keyValues[..i], ACCESS_TOKEN), Some(""))
        invariant tokens.refreshToken == OrDefault(LastValue(keyValues[..i], REFRESH_TOKEN), Some(""))
        invariant linkType == OrDefault(LastValue(keyValues[..i], TYPE), Some(""))
      {
        var key := Key(keyValues[i]);
        var value := Value(keyValues[i]);
        assert keyValues[..i + 1][..i] == keyValues[..i];
        if key == ACCESS_TOKEN {
          tokens := tokens.(accessToken := value);
        } else if key == REFRESH_TOKEN {
          tokens := tokens.(refreshToken := value);
        }
        if key == TYPE {
          linkType := value;
        }
      }
      assert keyValues[..|keyValues|] == keyValues;
    }

    /** `signInWithTokens(tokens)`: the session is set from the tokens, then
      the state is reloaded. `sessionEmail` is the email of the session the
      authentication service holds afterwards, if any. */
    method SignInWithTokens(tokens: Tokens, sessionEmail: Option<string>)
      modifies this`email, this`initialized
      ensures initialized
      ensures IsAuthenticated() <==> sessionEmail.Some? && sessionEmail.value != ""
      ensures IsAuthenticated() ==> email == sessionEmail.value
    {
      LoadState(sessionEmail);
    }

    /** `parseURL(urlParams)`: the tokens go to the session and the state is
      reloaded from it (`sessionEmail` is the email the service then
      holds); a recovery link opens the reset-password view, any other link
      closes the auth dialog. */
    method ParseURL(urlParams: string, sessionEmail: Option<string>) returns (tokens: Tokens)
      modifies this`authView, this`email, this`initialized, authDialog
      ensures tokens == ParsedParams(urlParams).tokens
      ensures initialized
      ensures IsAuthenticated() <==> sessionEmail.Some? && sessionEmail.value != ""
      ensures IsAuthenticated() ==> email == sessionEmail.value
      ensures authDialog == old(authDialog)
      ensures ParsedParams(urlParams).linkType == Some(RECOVERY) ==> (
        authView == RESET_PASSWORD && authDialog.visible && authDialog.onConfirmCallback == Some(UPDATE_PASSWORD))
      ensures ParsedParams(urlParams).linkType != Some(RECOVERY) ==> (
        authView == old(authView) && !authDialog.visible
        && authDialog.onConfirmCallback == old(authDialog.onConfirmCallback))
      ensures authDialog.ran == old(authDialog.ran)
    {
      var linkType;
      tokens, linkType := ParseTokens(urlParams);
      SignInWithTokens(tokens, sessionEmail);
      if linkType == Some(RECOVERY) {
        authView := RESET_PASSWORD;
        authDialog.OnConfirm(UPDATE_PASSWORD);
        authDialog.Show();
      } else {
        authDialog.Close();
      }
    }
  }
}
