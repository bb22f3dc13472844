/**
 * The session state machine of src/contexts/AuthContext.tsx.
 *
 * `AuthProvider` holds the `state` cell that `setState` overwrites; the
 * browser's localStorage entry under the session key is the one slot of a
 * SessionStorage object, shared by every mount so that a later mount can
 * restore what an earlier one persisted. The results of the mock `login`,
 * `signup` and `logout` calls are parameters; JSON text is classified by how
 * `restoreSession` reads it.
 */
module Auth {
  import opened Wrappers
  import MockAuth

  /** `AuthState`. */
  datatype AuthState = AuthState(user: Option<MockAuth.User>, isAuthenticated: bool, isLoading: bool)

  /** What the session entry can hold, as `restoreSession` distinguishes it. */
  datatype SessionText =
    | EmptyText                        // the empty string, which is falsy
    | SessionOf(user: MockAuth.User)   // JSON whose `user` field is present
    | WithoutUser                      // JSON that parses but has no truthy `user`
    | Malformed                        // text on which `JSON.parse` throws

  /** `initialState`: no user, not authenticated, loading. */
  function InitialState(): (s: AuthState)
    ensures s.user.None? && !s.isAuthenticated && s.isLoading
  {
    AuthState(None, false, true)
  }

  /** The relation every written state keeps: authenticated exactly when a user is present. */
  predicate Coherent(s: AuthState)
  {
    s.isAuthenticated <==> s.user.Some?
  }

  /** The browser's localStorage entry under `noteably:auth-session`. */
  class SessionStorage {
    var slot: Option<SessionText>

    constructor (initial: Option<SessionText>)
      ensures slot == initial
    {
      slot := initial;
    }
  }

  /** `AuthProvider`: the state cell and the callbacks that overwrite it. */
  class AuthProvider {
    var state: AuthState
    const storage: SessionStorage
    /** `typeof window !== 'undefined'`. */
    const hasWindow: bool

    ghost predicate Valid()
      reads this
    {
      Coherent(state)
    }

    /** Mounting: the state starts as `initialState`. */
    constructor (storage: SessionStorage, hasWindow: bool)
      ensures Valid() && state == InitialState()
      ensures this.storage == storage && this.hasWindow == hasWindow
    {
      state := InitialState();
      this.storage := storage;
      this.hasWindow := hasWindow;
    }

    /** `persistUser`: remove the entry for no user, store `{ user }` otherwise; nothing without a window. */
    method PersistUser(user: Option<MockAuth.User>)
      modifies storage
      ensures !hasWindow ==> storage.slot == old(storage.slot)
      ensures hasWindow && user.None? ==> storage.slot.None?
      ensures hasWindow && user.Some? ==> storage.slot == Some(SessionOf(user.value))
    {
      if !hasWindow {
        return;
      }
      if user.None? {
        storage.slot := None;
        return;
      }
      storage.slot := Some(SessionOf(user.value));
    }

    /**
     * `restoreSession`, run once by the mount effect: without a window or
     * without a (truthy) entry only `isLoading` changes; an entry with a user
     * authenticates that user; any other entry is removed and the state is
     * signed out.
     */
    method RestoreSession()
      requires Valid()
      modifies this, storage
      ensures Valid() && !state.isLoading
      ensures !hasWindow || old(storage.slot) in {None, Some(EmptyText)} ==>
                state == old(state).(isLoading := false) && storage.slot == old(storage.slot)
      ensures hasWindow && old(storage.slot).Some? && old(storage.slot).value.SessionOf? ==>
                state == AuthState(Some(old(storage.slot).value.user), true, false)
                && storage.slot == old(storage.slot)
      ensures hasWindow && old(storage.slot) in {Some(WithoutUser), Some(Malformed)} ==>
                state == AuthState(None, false, false) && storage.slot.None?
    {
      if !hasWindow {
        state := state.(isLoading := false);
        return;
      }
      var stored := storage.slot;
      if stored.None? || stored.value == EmptyText {
        state := state.(isLoading := false);
        return;
      }
      match stored.value
      case SessionOf(u) =>
        state := AuthState(Some(u), true, false);
      case WithoutUser =>
        storage.slot := None;
        state := AuthState(None, false, false);
      case Malformed =>
        storage.slot := None;
        state := AuthState(None, false, false);
    }

    /**
     * `login` (and, with the same body, `signup`): on success persist the
     * user and authenticate it; on failure only `isLoading` becomes false, and
     * the error is passed on.
     */
    method Login(mockResult: Result<MockAuth.User, string>) returns (r: Result<MockAuth.User, string>)
      requires Valid()
      modifies this, storage
      ensures Valid() && !state.isLoading && r == mockResult
      ensures mockResult.Ok? ==> state == AuthState(Some(mockResult.value), true, false)
                                 && (hasWindow ==> storage.slot == Some(SessionOf(mockResult.value)))
                                 && (!hasWindow ==> storage.slot == old(storage.slot))
      ensures mockResult.Err? ==> state == old(state).(isLoading := false) && storage.slot == old(storage.slot)
    {
      match mockResult
      case Ok(user) =>
        PersistUser(Some(user));
        state := AuthState(Some(user), true, false);
        r := Ok(user);
      case Err(e) =>
        state := state.(isLoading := false);
        r := Err(e);
    }

    /** `signup`: the same transitions as `Login`, for the result of the mock `signup`. */
    method Signup(mockResult: Result<MockAuth.User, string>) returns (r: Result<MockAuth.User, string>)
      requires Valid()
      modifies this, storage
      ensures Valid() && !state.isLoading && r == mockResult
      ensures mockResult.Ok? ==> state == AuthState(Some(mockResult.value), true, false)
                                 && (hasWindow ==> storage.slot == Some(SessionOf(mockResult.value)))
                                 && (!hasWindow ==> storage.slot == old(storage.slot))
      ensures mockResult.Err? ==> state == old(state).(isLoading := false) && storage.slot == old(storage.slot)
    {
      r := Login(mockResult);
    }

    /**
     * `logout`: whether or not the mock logout throws, the entry is removed
     * and the state is signed out; a failure is then passed on.
     */
    method Logout(mockResult: Outcome<string>) returns (r: Outcome<string>)
      modifies this, storage
      ensures Valid() && r == mockResult
      ensures state == AuthState(None, false, false)
      ensures hasWindow ==> storage.slot.None?
      ensures !hasWindow ==> storage.slot == old(storage.slot)
    {
      PersistUser(None);
      state := AuthState(None, false, false);
      r := mockResult;
    }
  }

  /**
   * A login followed by a reload: a fresh provider on the same storage
   * restores the user the earlier one logged in, or, when the login failed,
   * finds nothing to restore where there was nothing before.
   */
  method LoginThenReload(mockResult: Result<MockAuth.User, string>) returns (before: AuthState, after: AuthState)
    ensures mockResult.Ok? ==> before == after == AuthState(Some(mockResult.value), true, false)
    ensures mockResult.Err? ==> before == after == AuthState(None, false, false)
  {
    var storage := new SessionStorage(None);
    var first := new AuthProvider(storage, true);
    first.RestoreSession();
    var _ := first.Login(mockResult);
    before := first.state;
    var second := new AuthProvider(storage, true);
    second.RestoreSession();
    after := second.state;
  }
}
