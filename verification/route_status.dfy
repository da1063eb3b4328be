/** The text form of a route status: the enum constant names and the
    case-insensitive lookup `RouteStatus.valueOf(s.toUpperCase())`. */
module RouteStatusText {
  import opened Wrappers
  import opened Entities

  /** The constant name a status is stored and looked up by. */
  function Name(st: RouteStatus): string {
    match st
    case Planned => "PLANNED"
    case InProgress => "IN_PROGRESS"
    case Completed => "COMPLETED"
    case Cancelled => "CANCELLED"
    case Failed => "FAILED"
  }

  /** Different statuses have different names. */
  lemma NameInjective(a: RouteStatus, b: RouteStatus)
    ensures Name(a) == Name(b) <==> a == b
  {
  }

  function UpperChar(c: char): char {
    if 'a' <= c <= 'z' then (c as int - 32) as char else c
  }

  function LowerChar(c: char): char {
    if 'A' <= c <= 'Z' then (c as int + 32) as char else c
  }

  /** Upper-casing letter by letter: length kept, every `a`..`z` raised. */
  function ToUpper(s: string): (u: string)
    ensures |u| == |s|
    ensures forall i :: 0 <= i < |s| ==> u[i] == UpperChar(s[i])
  {
    seq(|s|, i requires 0 <= i < |s| => UpperChar(s[i]))
  }

  function ToLower(s: string): (l: string)
    ensures |l| == |s|
    ensures forall i :: 0 <= i < |s| ==> l[i] == LowerChar(s[i])
  {
    seq(|s|, i requires 0 <= i < |s| => LowerChar(s[i]))
  }

  /** The status whose name is the upper-cased text, if there is one. */
  function ParseRouteStatus(s: string): (r: Option<RouteStatus>)
    ensures forall st :: r == Some(st) <==> ToUpper(s) == Name(st)
    ensures r.None? <==> forall st :: ToUpper(s) != Name(st)
  {
    var u := ToUpper(s);
    if u == Name(Planned) then Some(Planned)
    else if u == Name(InProgress) then Some(InProgress)
    else if u == Name(Completed) then Some(Completed)
    else if u == Name(Cancelled) then Some(Cancelled)
    else if u == Name(Failed) then Some(Failed)
    else None
  }

  lemma ToUpperIdempotent(s: string)
    ensures ToUpper(ToUpper(s)) == ToUpper(s)
  {
  }

  lemma UpperOfLower(s: string)
    ensures ToUpper(ToLower(s)) == ToUpper(s)
  {
  }

  /** Case does not matter: a text, its upper-case and its lower-case form
      all parse to the same status (or all fail). */
  lemma ParseIgnoresCase(s: string)
    ensures ParseRouteStatus(ToUpper(s)) == ParseRouteStatus(s)
    ensures ParseRouteStatus(ToLower(s)) == ParseRouteStatus(s)
  {
    ToUpperIdempotent(s);
    UpperOfLower(s);
  }

  /** Every status is read back from its own name, in either case. */
  lemma ParseName(st: RouteStatus)
    ensures ParseRouteStatus(Name(st)) == Some(st)
    ensures ParseRouteStatus(ToLower(Name(st))) == Some(st)
  {
    var n := Name(st);
    assert forall i :: 0 <= i < |n| ==> !('a' <= n[i] <= 'z');
    UpperFixed(n);
    ParseIgnoresCase(n);
  }

  /** Text without lower-case letters is its own upper-case form. */
  lemma UpperFixed(s: string)
    requires forall i :: 0 <= i < |s| ==> !('a' <= s[i] <= 'z')
    ensures ToUpper(s) == s
  {
  }

  /** Text that is not a status name even after upper-casing is rejected,
      for instance the display form "In Progress". */
  lemma SpacedNameRejected()
    ensures ParseRouteStatus("In Progress").None?
  {
    assert ToUpper("In Progress")[2] == ' ';
  }
}
