/**
 * The application bar (`Header`): what it shows for the session, the initials in the avatar,
 * and the account menu, open while it has an anchor element.
 */
module Header {
  import opened Wrappers
  import opened Text
  import AuthContext

  /** How many of the parts are not empty. */
  function Words(parts: seq<string>): (n: nat)
    ensures n <= |parts|
  {
    if parts == [] then 0 else (if parts[0] == "" then 0 else 1) + Words(parts[1..])
  }

  /**
   * `.map(n => n[0]).join('')`: the first character of every part, in order; an empty part's
   * `n[0]` is `undefined`, which `join` writes as nothing.
   */
  function Firsts(parts: seq<string>): (r: string)
    ensures |r| == Words(parts)
    ensures (forall i | 0 <= i < |parts| :: parts[i] != "") ==>
      |r| == |parts| && forall i | 0 <= i < |parts| :: r[i] == parts[i][0]
  {
    if parts == [] then ""
    else
      var rest := Firsts(parts[1..]);
      assert forall i | 1 <= i < |parts| :: parts[1..][i - 1] == parts[i];
      (if parts[0] == "" then "" else [parts[0][0]]) + rest
  }

  /** `getInitials(name)`: '' for a missing or empty name, else the uppercased first characters of its ' '-separated parts. */
  function GetInitials(name: Option<string>): (r: string)
    ensures name.None? || name == Some("") ==> r == ""
    ensures name.Some? ==> |r| == Words(Split(name.value, ' ')) <= |Split(name.value, ' ')|
  {
    if name.None? || name.value == "" then ""
    else ToUpper(Firsts(Split(name.value, ' ')))
  }

  /** An empty part, wherever it sits, adds nothing to the initials. */
  lemma {:induction false} EmptyPartIgnored(a: seq<string>, b: seq<string>)
    ensures Firsts(a + [""] + b) == Firsts(a + b)
  {
    if a == [] {
      assert a + [""] + b == [""] + b;
      assert ([""] + b)[1..] == b;
      assert a + b == b;
    } else {
      var s, t := a + [""] + b, a + b;
      EmptyPartIgnored(a[1..], b);
      assert s[0] == a[0] && t[0] == a[0];
      assert s[1..] == a[1..] + [""] + b;
      assert t[1..] == a[1..] + b;
      assert Firsts(s) == (if a[0] == "" then "" else [a[0][0]]) + Firsts(s[1..]);
    }
  }

  /** The initials of a name written as space-free parts joined by ' ' are those parts' first characters, uppercased. */
  lemma InitialsOfParts(parts: seq<string>)
    requires |parts| >= 1
    requires forall i | 0 <= i < |parts| :: ' ' !in parts[i]
    ensures GetInitials(Some(Join(parts, ' '))) == ToUpper(Firsts(parts))
  {
    SplitJoin(parts, ' ');
  }

  /** A name of non-empty words gets one initial per word: the word's first character, uppercased. */
  lemma InitialsOfWords(words: seq<string>)
    requires |words| >= 1
    requires forall i | 0 <= i < |words| :: words[i] != "" && ' ' !in words[i]
    ensures var r := GetInitials(Some(Join(words, ' ')));
      |r| == |words| && forall i | 0 <= i < |words| :: r[i] == UpperChar(words[i][0])
  {
    InitialsOfParts(words);
  }

  /** A leading space changes nothing. */
  lemma LeadingSpaceIgnored(name: string)
    ensures GetInitials(Some(" " + name)) == GetInitials(Some(name))
  {
    SplitWordThen("", name, ' ');
    assert "" + [' '] + name == " " + name;
    EmptyPartIgnored([], Split(name, ' '));
    assert [] + [""] + Split(name, ' ') == [""] + Split(name, ' ');
    if name == "" {
      assert Split(name, ' ') == [""];
    }
  }

  // ---------------------------------------------------------------- the bar

  /** What the right end of the bar shows. */
  datatype Bar = Spinner | Account(initials: string, name: string, email: string) | LoginButton

  /** A spinner while the session loads, the account avatar and menu for a signed-in user, else the login button. */
  function Shown(s: AuthContext.AuthState): (b: Bar)
    ensures b.Account? <==> !s.isLoading && s.isAuthenticated && s.user.Some?
    ensures b.Account? ==> b.initials == GetInitials(Some(s.user.value.name)) && b.email == s.user.value.email
  {
    if s.isLoading then Spinner
    else if s.isAuthenticated && s.user.Some? then
      var u := s.user.value;
      Account(GetInitials(Some(u.name)), u.name, u.email)
    else LoginButton
  }

  /** Once logged out, the bar offers the login button unless the session is still loading. */
  lemma LogoutShowsLogin(s: AuthContext.AuthState)
    ensures Shown(AuthContext.LoggedOut(s)) == (if s.isLoading then Spinner else LoginButton)
  {
  }

  /** The element the account menu is anchored to; only which element it is matters. */
  datatype Anchor = Anchor(element: nat)

  class Menu {
    var anchorEl: Option<Anchor>

    /** `open={Boolean(anchorEl)}`. */
    predicate IsOpen()
      reads this
    {
      anchorEl.Some?
    }

    /** The state hook starts at `null`: the menu is closed. */
    constructor ()
      ensures anchorEl == None && !IsOpen()
    {
      anchorEl := None;
    }

    /** `handleMenu`: the clicked element becomes the anchor, and the menu opens. */
    method HandleMenu(target: Anchor)
      modifies this
      ensures anchorEl == Some(target) && IsOpen()
    {
      anchorEl := Some(target);
    }

    /** `handleClose`: the anchor is dropped, and the menu closes. */
    method HandleClose()
      modifies this
      ensures anchorEl == None && !IsOpen()
    {
      anchorEl := None;
    }

    /** `handleLogout`: the session logs out, then the menu closes. */
    method HandleLogout(auth: AuthContext.Provider)
      modifies this, auth
      ensures auth.State() == AuthContext.LoggedOut(old(auth.State()))
      ensures anchorEl == None && !IsOpen()
    {
      auth.Logout();
      HandleClose();
    }

    /** `handleProfile`: there is no profile page, so it only closes the menu. */
    method HandleProfile()
      modifies this
      ensures anchorEl == None && !IsOpen()
    {
      HandleClose();
    }
  }
}
