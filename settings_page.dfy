/**
 * AIWA_Settings::save in wp-content-helper.php: the admin-post handler of
 * the plugin's settings page. It checks the nonce, stores the posted key
 * under the meta key the AJAX endpoints read, and redirects back.
 */
module SettingsPage {
  import opened Php
  import opened UserMeta
  import AjaxHandlers
  import GeminiApi

  const KeyField: string := "api_key"
  const SavedPath: string := "admin.php?page=wp-content-helper&saved=1"

  /** The meta store after a save with a valid nonce. */
  function SavedKey(meta: Meta, userId: int, post: map<string, string>, sanitizeText: string -> string): Meta {
    if KeyField in post then meta[(userId, AjaxHandlers.ApiKeyMeta) := sanitizeText(post[KeyField])] else meta
  }

  /**
   * The only entry a save can change is the current user's aiwa_api_key,
   * and only when the field was posted; it then holds the sanitized value.
   */
  lemma SavedKeyWritesOneEntry(meta: Meta, userId: int, post: map<string, string>, sanitizeText: string -> string)
    ensures KeyField in post ==>
      Lookup(SavedKey(meta, userId, post, sanitizeText), userId, AjaxHandlers.ApiKeyMeta) == sanitizeText(post[KeyField])
    ensures KeyField !in post ==> SavedKey(meta, userId, post, sanitizeText) == meta
    ensures forall u, k :: (u, k) != (userId, AjaxHandlers.ApiKeyMeta) ==>
      Lookup(SavedKey(meta, userId, post, sanitizeText), u, k) == Lookup(meta, u, k)
  {
  }

  /**
   * A key saved here is the key the AJAX endpoints then send: after a save
   * of a non-empty key, a request with a valid nonce and some text gets
   * past the key guard and calls the provider with that key.
   */
  lemma SavedKeyReachesEndpoints(release: GeminiApi.Release, action: AjaxHandlers.Action,
                                 meta: Meta, userId: int, post: map<string, string>,
                                 req: AjaxHandlers.Request, host: AjaxHandlers.Host)
    requires KeyField in post
    requires req.nonceValid && req.userId == userId
    requires !IsEmpty(AjaxHandlers.PostedText(req, host))
    requires var k := host.sanitizeText(post[KeyField]); k != "" && k != "0"
    ensures var h := AjaxHandlers.Handle(release, action, req, SavedKey(meta, userId, post, host.sanitizeText), host);
      |h.calls| == 1 && h.calls[0].apiKey == host.sanitizeText(post[KeyField])
  {
    AjaxHandlers.GuardsPassedMeansOneCall(release, action, req, SavedKey(meta, userId, post, host.sanitizeText), host);
  }

  /** AIWA_Settings::save: a failed nonce ends the request untouched; otherwise store and redirect with saved=1. */
  method Save(store: Store, nonceValid: bool, userId: int, post: map<string, string>,
              sanitizeText: string -> string, adminUrl: string) returns (exit: Exit)
    modifies store
    ensures !nonceValid ==> exit == NonceFailure && store.entries == old(store.entries)
    ensures nonceValid ==> exit == Redirect(adminUrl + SavedPath)
    ensures nonceValid ==> store.entries == SavedKey(old(store.entries), userId, post, sanitizeText)
  {
    if !nonceValid {
      return NonceFailure;
    }
    if KeyField in post {
      store.Update(userId, AjaxHandlers.ApiKeyMeta, sanitizeText(post[KeyField]));
    }
    return Redirect(adminUrl + SavedPath);
  }
}
