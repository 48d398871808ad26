/** The navigation bar (movieapp/src/Components/Navbar.jsx): which links and
    buttons it shows for the stored token and role, and what logging out
    clears. */
module Navbar {
  import opened Wrappers

  /** The token and role the bar reads from storage. */
  datatype Session = Session(token: Option<string>, role: Option<string>)

  /** The entries the bar can render. */
  datatype NavItem =
    | Home | Dashboard | AddMovie | AddTheater | AddShow | Shows
    | MyTickets | Login | Signup | Logout

  /** Route each link leads to; the logout button leads to the login page
      after clearing the session. */
  function Target(item: NavItem): (path: string)
    ensures |path| > 0 && path[0] == '/'
    ensures path == "/login" <==> item == Login || item == Logout
  {
    match item
    case Home => "/"
    case Dashboard => "/admin/dashboard"
    case AddMovie => "/MovieDashboard"
    case AddTheater => "/add-theater"
    case AddShow => "/add-show"
    case Shows => "/shows"
    case MyTickets => "/my-tickets"
    case Login => "/login"
    case Signup => "/signup"
    case Logout => "/login"
  }

  /** A stored token counts only when present and non-empty. */
  predicate SignedIn(s: Session)
  {
    s.token.Some? && s.token.value != ""
  }

  predicate AdminItem(item: NavItem)
  {
    item in {Dashboard, AddMovie, AddTheater, AddShow, Shows}
  }

  /** The entries shown, in render order. */
  function Visible(s: Session): (items: seq<NavItem>)
    ensures |items| > 0 && items[0] == Home
    ensures forall i, j :: 0 <= i < j < |items| ==> items[i] != items[j]
  {
    [Home]
    + (if SignedIn(s) && s.role == Some("Admin") then [Dashboard, AddMovie, AddTheater, AddShow, Shows] else [])
    + (if SignedIn(s) && s.role == Some("User") then [MyTickets] else [])
    + (if !SignedIn(s) then [Login, Signup] else [Logout])
  }

  /** Which entries are shown for a session: Home always; the admin links
      exactly for a signed-in Admin; My Tickets exactly for a signed-in User;
      Login and Signup exactly when signed out; Logout exactly when signed in. */
  lemma VisibleItems(s: Session)
    ensures Home in Visible(s)
    ensures forall item :: AdminItem(item) ==> (item in Visible(s) <==> SignedIn(s) && s.role == Some("Admin"))
    ensures MyTickets in Visible(s) <==> SignedIn(s) && s.role == Some("User")
    ensures Login in Visible(s) <==> !SignedIn(s)
    ensures Signup in Visible(s) <==> !SignedIn(s)
    ensures Logout in Visible(s) <==> SignedIn(s)
  {
  }

  /** The admin links and My Tickets never appear together. */
  lemma AdminAndUserExclusive(s: Session)
    ensures !(Dashboard in Visible(s) && MyTickets in Visible(s))
    ensures forall item :: AdminItem(item) && item in Visible(s) ==> MyTickets !in Visible(s)
  {
  }

  /** `handleLogout`: both token and role are removed. */
  function LogOut(s: Session): (r: Session)
    ensures !SignedIn(r) && r.role.None?
  {
    Session(None, None)
  }

  /** After logging out only Home, Login and Signup are shown. */
  lemma LogOutHidesGatedItems(s: Session)
    ensures Visible(LogOut(s)) == [Home, Login, Signup]
    ensures forall item :: AdminItem(item) || item == MyTickets || item == Logout ==> item !in Visible(LogOut(s))
  {
  }
}
