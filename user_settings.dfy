/**
 * AIWA_User_Settings: the API-key field on the user profile screen. What is
 * modelled is the masking of a stored key for display, the save handler
 * that writes the two profile fields into the user's meta, and the default
 * for the preferred language.
 */
module UserSettings {
  import opened Php
  import opened UserMeta
  import AjaxHandlers

  const KeyField: string := "aiwa_gemini_api_key"
  const LanguageField: string := "aiwa_preferred_language"
  const DefaultLanguage: string := "en"

  /** str_repeat('*', n) */
  function Stars(n: nat): (r: string)
    ensures |r| == n && forall i :: 0 <= i < n ==> r[i] == '*'
  {
    seq(n, _ => '*')
  }

  /** Whether position i of a key of length n is shown as it is. */
  predicate Kept(n: nat, i: nat) {
    n > 8 && (i < 4 || i >= n - 4)
  }

  /**
   * mask_api_key: "" for a key PHP calls empty; otherwise a string of the
   * same length showing the first four and last four characters of a key
   * longer than eight, and '*' everywhere else.
   */
  function MaskApiKey(key: string): (r: string)
    ensures IsEmpty(key) ==> r == ""
    ensures !IsEmpty(key) ==> |r| == |key|
    ensures !IsEmpty(key) ==> forall i :: 0 <= i < |key| ==> r[i] == if Kept(|key|, i) then key[i] else '*'
    ensures !IsEmpty(key) && |key| <= 8 ==> r == Stars(|key|)
    ensures |key| > 8 ==> r[..4] == key[..4] && r[|r| - 4..] == key[|key| - 4..]
  {
    if IsEmpty(key) then ""
    else if |key| <= 8 then Stars(|key|)
    else
      var n := |key|;
      var r := key[..4] + Stars(n - 8) + key[n - 4..];
      assert forall i :: 4 <= i < n - 4 ==> r[i] == Stars(n - 8)[i - 4];
      r
  }

  /** How many of the first m positions of a key of length n are shown. */
  function KeptCount(n: nat, m: nat): nat
    requires m <= n
  {
    if m == 0 then 0 else KeptCount(n, m - 1) + (if Kept(n, m - 1) then 1 else 0)
  }

  lemma {:induction false} KeptCountPrefix(n: nat, m: nat)
    requires m <= n
    ensures n <= 8 ==> KeptCount(n, m) == 0
    ensures n > 8 ==> KeptCount(n, m) == if m <= 4 then m else if m <= n - 4 then 4 else m - n + 8
  {
    if m > 0 {
      KeptCountPrefix(n, m - 1);
    }
  }

  /** A masked key never shows more than eight of the key's characters, and a key of eight or fewer shows none. */
  lemma MaskRevealsAtMostEight(key: string)
    ensures KeptCount(|key|, |key|) <= 8
    ensures |key| <= 8 ==> KeptCount(|key|, |key|) == 0
    ensures |key| > 8 ==> KeptCount(|key|, |key|) == 8
  {
    KeptCountPrefix(|key|, |key|);
  }

  /** The profile screen shows "en" for a user whose stored language is empty; the shown value is never empty. */
  function PreferredLanguage(stored: string): (lang: string)
    ensures !IsEmpty(lang)
    ensures !IsEmpty(stored) ==> lang == stored
  {
    if IsEmpty(stored) then DefaultLanguage else stored
  }

  /** The meta store after save_api_key ran for a user. */
  function SavedSettings(meta: Meta, userId: int, canEdit: bool, post: map<string, string>,
                         sanitizeText: string -> string): Meta
  {
    if !canEdit then meta
    else
      var withKey := if KeyField in post then meta[(userId, KeyField) := sanitizeText(post[KeyField])] else meta;
      if LanguageField in post then withKey[(userId, LanguageField) := sanitizeText(post[LanguageField])] else withKey
  }

  /**
   * save_api_key changes nothing without the edit_user capability; with it,
   * each of the two fields is written, sanitized, exactly when it was posted,
   * and every other entry of the store keeps its value.
   */
  lemma SavedSettingsWritesOnlyPostedFields(meta: Meta, userId: int, canEdit: bool, post: map<string, string>,
                                            sanitizeText: string -> string)
    ensures !canEdit ==> SavedSettings(meta, userId, canEdit, post, sanitizeText) == meta
    ensures var saved := SavedSettings(meta, userId, canEdit, post, sanitizeText);
      && (canEdit && KeyField in post ==> Lookup(saved, userId, KeyField) == sanitizeText(post[KeyField]))
      && (canEdit && LanguageField in post ==> Lookup(saved, userId, LanguageField) == sanitizeText(post[LanguageField]))
      && (KeyField !in post ==> Lookup(saved, userId, KeyField) == Lookup(meta, userId, KeyField))
      && (LanguageField !in post ==> Lookup(saved, userId, LanguageField) == Lookup(meta, userId, LanguageField))
      && (forall u, k :: u != userId || (k != KeyField && k != LanguageField) ==> Lookup(saved, u, k) == Lookup(meta, u, k))
  {
  }

  /**
   * The profile screen stores the key under aiwa_gemini_api_key, while the
   * AJAX endpoints read aiwa_api_key: saving the profile never changes the
   * key the endpoints see.
   */
  lemma ProfileKeyIsNotTheAjaxKey(meta: Meta, userId: int, canEdit: bool, post: map<string, string>,
                                  sanitizeText: string -> string, u: int)
    ensures Lookup(SavedSettings(meta, userId, canEdit, post, sanitizeText), u, AjaxHandlers.ApiKeyMeta)
         == Lookup(meta, u, AjaxHandlers.ApiKeyMeta)
  {
    SavedSettingsWritesOnlyPostedFields(meta, userId, canEdit, post, sanitizeText);
  }

  /** save_api_key: false without the capability, otherwise null after the conditional writes. */
  method SaveApiKey(store: Store, userId: int, canEdit: bool, post: map<string, string>,
                    sanitizeText: string -> string) returns (r: Value)
    modifies store
    ensures r == if canEdit then Null else Bool(false)
    ensures store.entries == SavedSettings(old(store.entries), userId, canEdit, post, sanitizeText)
  {
    if !canEdit {
      return Bool(false);
    }
    if KeyField in post {
      var apiKey := sanitizeText(post[KeyField]);
      store.Update(userId, KeyField, apiKey);
    }
    if LanguageField in post {
      var language := sanitizeText(post[LanguageField]);
      store.Update(userId, LanguageField, language);
    }
    return Null;
  }
}
