/** The teacher header's page title. */
module Header {
  import opened Wrappers

  /** The title for a route when no title is passed in. */
  function PathTitle(pathname: string): (t: string)
    ensures t in {"Dashboard", "Create Exam", "Notifications", "Settings", "ExamEase"}
    ensures t == "ExamEase" <==>
      pathname != "/dashboard" && pathname != "/create-exam" &&
      pathname != "/notifications" && pathname != "/settings"
  {
    if pathname == "/dashboard" then "Dashboard"
    else if pathname == "/create-exam" then "Create Exam"
    else if pathname == "/notifications" then "Notifications"
    else if pathname == "/settings" then "Settings"
    else "ExamEase"
  }

  /** getTitle: a non-empty title prop wins; an absent or empty one falls
      through to the route. */
  function Title(propTitle: Option<string>, pathname: string): (t: string)
    ensures propTitle.Some? && propTitle.value != "" ==> t == propTitle.value
    ensures propTitle.None? || propTitle.value == "" ==> t == PathTitle(pathname)
  {
    if propTitle.Some? && propTitle.value != "" then propTitle.value else PathTitle(pathname)
  }

  /** Without a title prop the header shows the route's title: the four
      named routes and their titles, with "/" and "/results" not among
      them. */
  lemma NamedRoutes()
    ensures PathTitle("/dashboard") == "Dashboard"
    ensures PathTitle("/create-exam") == "Create Exam"
    ensures PathTitle("/notifications") == "Notifications"
    ensures PathTitle("/settings") == "Settings"
    ensures PathTitle("/") == "ExamEase" && PathTitle("/results") == "ExamEase"
    ensures Title(None, "/dashboard") == "Dashboard" && Title(Some(""), "/settings") == "Settings"
    ensures Title(Some(""), "/results") == "ExamEase"
  {
  }
}
