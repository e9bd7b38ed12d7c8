/**
 * The admin session (context/auth-context.tsx): three pieces of React state and the browser's
 * persisted store, written under the keys "adminId" and "adminToken".
 */
module Auth {
  import opened Wrappers

  const AdminIdKey: string := "adminId"
  const AdminTokenKey: string := "adminToken"

  /** `localStorage`: one string-to-string store shared by every component of the page. */
  class Storage {
    var entries: map<string, string>

    constructor (initial: map<string, string>)
      ensures entries == initial
    {
      entries := initial;
    }
  }

  /** `localStorage.getItem(key)`: null when the key is absent. */
  function GetItem(entries: map<string, string>, key: string): Option<string>
  {
    if key in entries then Some(entries[key]) else None
  }

  /** The stored value is truthy: present and not the empty string. */
  predicate Truthy(v: Option<string>)
  {
    v.Some? && v.value != ""
  }

  /** The admin id the mount-time check restores from `entries`, or None when it restores nothing. */
  function StoredAdmin(entries: map<string, string>): Option<string>
  {
    var id := GetItem(entries, AdminIdKey);
    if Truthy(id) && Truthy(GetItem(entries, AdminTokenKey)) then id else None
  }

  /** The store after `login(id)`: the id is written, the token left as it was. */
  function LoginWrites(entries: map<string, string>, id: string): map<string, string>
  {
    entries[AdminIdKey := id]
  }

  /** The store after `logout()`: both session keys removed. */
  function LogoutWrites(entries: map<string, string>): map<string, string>
  {
    entries - {AdminIdKey, AdminTokenKey}
  }

  /**
   * The restore test in terms of the store: it succeeds, with the stored id, exactly when both
   * keys hold non-empty strings.
   */
  lemma StoredAdminSpec(entries: map<string, string>)
    ensures StoredAdmin(entries).Some? <==>
      && AdminIdKey in entries && entries[AdminIdKey] != ""
      && AdminTokenKey in entries && entries[AdminTokenKey] != ""
    ensures StoredAdmin(entries).Some? ==> StoredAdmin(entries) == Some(entries[AdminIdKey])
  {
  }

  /** After logout nothing is restored, and logging out again leaves the store as it is. */
  lemma LogoutForgets(entries: map<string, string>)
    ensures StoredAdmin(LogoutWrites(entries)) == None
    ensures LogoutWrites(LogoutWrites(entries)) == LogoutWrites(entries)
    ensures forall k :: k in entries && k != AdminIdKey && k != AdminTokenKey ==>
      k in LogoutWrites(entries) && LogoutWrites(entries)[k] == entries[k]
  {
  }

  /** `AuthProvider`. */
  class AuthProvider {
    var isAdminLoggedIn: bool
    var adminId: Option<string>
    var isLoading: bool
    const storage: Storage

    /** The session invariant: logged in exactly when an admin id is held. */
    ghost predicate Valid()
      reads this
    {
      isAdminLoggedIn <==> adminId.Some?
    }

    /** While loading, the provider renders a placeholder instead of its children. */
    predicate RendersChildren()
      reads this
    {
      !isLoading
    }

    /** The initial state: logged out, no id, loading, nothing rendered yet. */
    constructor (storage: Storage)
      ensures Valid()
      ensures !isAdminLoggedIn && adminId == None && isLoading && !RendersChildren()
      ensures this.storage == storage
    {
      isAdminLoggedIn := false;
      adminId := None;
      isLoading := true;
      this.storage := storage;
    }

    /**
     * The mount effect: when the store holds a non-empty id and a non-empty token the session
     * is restored with that id, and otherwise left as it is; loading ends either way and the
     * store is only read.
     */
    method Rehydrate()
      requires Valid()
      modifies this
      ensures Valid()
      ensures !isLoading && RendersChildren()
      ensures StoredAdmin(storage.entries).Some? ==> isAdminLoggedIn && adminId == StoredAdmin(storage.entries)
      ensures StoredAdmin(storage.entries).None? ==>
        isAdminLoggedIn == old(isAdminLoggedIn) && adminId == old(adminId)
      ensures unchanged(storage)
    {
      var storedAdminId := GetItem(storage.entries, AdminIdKey);
      var token := GetItem(storage.entries, AdminTokenKey);
      if Truthy(storedAdminId) && Truthy(token) {
        adminId := storedAdminId;
        isAdminLoggedIn := true;
      }
      isLoading := false;
    }

    /** `login(id)`: logged in as `id`; the id is persisted, the token untouched. */
    method Login(id: string)
      requires Valid()
      modifies this, storage
      ensures Valid()
      ensures isAdminLoggedIn && adminId == Some(id) && isLoading == old(isLoading)
      ensures storage.entries == LoginWrites(old(storage.entries), id)
      ensures GetItem(storage.entries, AdminTokenKey) == GetItem(old(storage.entries), AdminTokenKey)
    {
      adminId := Some(id);
      isAdminLoggedIn := true;
      storage.entries := storage.entries[AdminIdKey := id];
    }

    /** `logout()`: logged out, no id, and both session keys removed from the store. */
    method Logout()
      requires Valid()
      modifies this, storage
      ensures Valid()
      ensures !isAdminLoggedIn && adminId == None && isLoading == old(isLoading)
      ensures storage.entries == LogoutWrites(old(storage.entries))
    {
      adminId := None;
      isAdminLoggedIn := false;
      storage.entries := storage.entries - {AdminIdKey};
      storage.entries := storage.entries - {AdminTokenKey};
    }
  }

  /** A page load: a fresh provider over `storage`, after its mount effect. */
  method OpenPage(storage: Storage) returns (provider: AuthProvider)
    ensures fresh(provider) && provider.storage == storage && provider.Valid()
    ensures provider.RendersChildren()
    ensures provider.adminId == StoredAdmin(storage.entries)
    ensures provider.isAdminLoggedIn <==> StoredAdmin(storage.entries).Some?
  {
    provider := new AuthProvider(storage);
    provider.Rehydrate();
  }

  /**
   * Logging out and reloading: whatever the store held, the reloaded page is logged out with
   * no id, so the dashboard redirects to the login page.
   */
  method LogoutThenReload(initial: map<string, string>) returns (loggedIn: bool, id: Option<string>)
    ensures !loggedIn && id == None
  {
    var storage := new Storage(initial);
    var session := OpenPage(storage);
    session.Logout();
    var reloaded := OpenPage(storage);
    loggedIn, id := reloaded.isAdminLoggedIn, reloaded.adminId;
  }
}
