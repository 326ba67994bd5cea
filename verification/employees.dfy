/** The employee-details server (backend/mcp-servers/employeedetails.py):
    a fixed list of employees loaded from JSON, looked up by name without
    regard to case. Loading the JSON file is not modelled; the list is a
    parameter. */
module Employees {
  import opened Common
  import opened Text

  /** One entry of an employee's "holidays" object: the leave type and the
      number of days. */
  datatype Holiday = Holiday(kind: string, days: int)

  /** An employee record; `holidays` is None when the record has no
      "holidays" key. */
  datatype Employee = Employee(name: string, age: int, holidays: Option<seq<Holiday>>)

  /** What a tool returns: a text, or the exception it lets escape. */
  datatype Answer = Reply(text: string) | Raised(error: string)

  predicate NameMatches(e: Employee, name: string) {
    Lower(e.name) == Lower(name)
  }

  /** `find_employee(name)`: the position of the first employee whose name
      equals `name` ignoring case. */
  function FindEmployee(es: seq<Employee>, name: string): (r: Option<nat>)
    ensures r.Some? ==> r.value < |es| && NameMatches(es[r.value], name)
    ensures r.Some? ==> forall j :: 0 <= j < r.value ==> !NameMatches(es[j], name)
    ensures r.None? <==> forall j :: 0 <= j < |es| ==> !NameMatches(es[j], name)
  {
    if es == [] then None
    else if NameMatches(es[0], name) then Some(0)
    else match FindEmployee(es[1..], name)
      case None => None
      case Some(i) => Some(i + 1)
  }

  /** The lookup only sees the lower-cased name. */
  lemma FindIgnoresCase(es: seq<Employee>, n1: string, n2: string)
    requires Lower(n1) == Lower(n2)
    ensures FindEmployee(es, n1) == FindEmployee(es, n2)
  {
    var a, b := FindEmployee(es, n1), FindEmployee(es, n2);
    if a.Some? && b.Some? {
      assert !(a.value < b.value) && !(b.value < a.value);
    }
  }

  /** `list_employees()`: the names in file order. */
  function ListEmployees(es: seq<Employee>): (r: seq<string>)
    ensures |r| == |es|
    ensures forall i :: 0 <= i < |es| ==> r[i] == es[i].name
  {
    seq(|es|, i requires 0 <= i < |es| => es[i].name)
  }

  /** Every listed name leads back to an employee: the first one whose
      name is the same up to case. */
  lemma ListedNamesAreFound(es: seq<Employee>, i: nat)
    requires i < |es|
    ensures var f := FindEmployee(es, ListEmployees(es)[i]);
            f.Some? && f.value <= i && Lower(es[f.value].name) == Lower(es[i].name)
  {
    assert NameMatches(es[i], ListEmployees(es)[i]);
  }

  /** No two employees share a name up to case. */
  predicate DistinctNames(es: seq<Employee>) {
    forall j, k :: 0 <= j < k < |es| ==> !NameMatches(es[j], es[k].name)
  }

  /** With names distinct up to case, a listed name leads back to the
      employee it was listed for. */
  lemma ListedNameFindsItself(es: seq<Employee>, i: nat)
    requires i < |es| && DistinctNames(es)
    ensures FindEmployee(es, ListEmployees(es)[i]) == Some(i)
  {
    ListedNamesAreFound(es, i);
  }

  function NotFoundMessage(name: string): string {
    "Employee '" + name + "' not found."
  }

  /** The separator printed before the holiday list: the bytes of a
      right arrow read back as Windows-1252 ("â†’"), as the source text
      has it. */
  const Arrow: string := "\U{E2}\U{2020}\U{2019}"

  function HolidayEntry(h: Holiday): string {
    h.kind + ": " + IntToString(h.days)
  }

  function HolidayEntries(hs: seq<Holiday>): (r: seq<string>)
    ensures |r| == |hs|
    ensures forall i :: 0 <= i < |hs| ==> r[i] == HolidayEntry(hs[i])
  {
    seq(|hs|, i requires 0 <= i < |hs| => HolidayEntry(hs[i]))
  }

  /** The three lines of the details: name, age, and the holiday entries
      after the arrow, separated by commas. */
  function NameLine(e: Employee): string {
    "Name: " + e.name
  }

  function AgeLine(e: Employee): string {
    "Age: " + IntToString(e.age)
  }

  function HolidaysLine(hs: seq<Holiday>): string {
    "Holidays " + Arrow + " " + Join(HolidayEntries(hs), ", ")
  }

  function DetailsLines(e: Employee, hs: seq<Holiday>): seq<string> {
    [NameLine(e), AgeLine(e), HolidaysLine(hs)]
  }

  function DetailsText(e: Employee, hs: seq<Holiday>): string {
    Join(DetailsLines(e, hs), "\n")
  }

  /** `get_employee_details(name)`: the details of the first match, which
      open with the name line and close with every holiday entry, in order,
      separated by commas; a record without "holidays" raises a KeyError. */
  function GetEmployeeDetails(es: seq<Employee>, name: string): (r: Answer)
    ensures FindEmployee(es, name).None? ==> r == Reply(NotFoundMessage(name))
    ensures FindEmployee(es, name).Some? ==>
              var e := es[FindEmployee(es, name).value];
              && (e.holidays.None? ==> r == Raised("'holidays'"))
              && (e.holidays.Some? ==>
                    && r == Reply(DetailsText(e, e.holidays.value))
                    && StartsWith(r.text, NameLine(e) + "\n")
                    && EndsWith(r.text, Join(HolidayEntries(e.holidays.value), ", ")))
  {
    match FindEmployee(es, name)
    case None => Reply(NotFoundMessage(name))
    case Some(i) =>
      match es[i].holidays
      case None => Raised("'holidays'")
      case Some(hs) =>
        DetailsEdges(es[i], hs);
        Reply(DetailsText(es[i], hs))
  }

  lemma DetailsEdges(e: Employee, hs: seq<Holiday>)
    ensures StartsWith(DetailsText(e, hs), NameLine(e) + "\n")
    ensures EndsWith(DetailsText(e, hs), Join(HolidayEntries(hs), ", "))
  {
    var a, b, j := NameLine(e), AgeLine(e), Join(HolidayEntries(hs), ", ");
    var p := "Holidays " + Arrow + " ";
    assert HolidaysLine(hs) == p + j;
    Join3(a, b, p + j, "\n");
    Edges3(a, b, p, j, "\n");
  }

  lemma Edges3(a: string, b: string, p: string, j: string, sep: string)
    ensures StartsWith(a + sep + b + sep + (p + j), a + sep)
    ensures EndsWith(a + sep + b + sep + (p + j), j)
  {
    assert a + sep + b + sep + (p + j) == (a + sep) + (b + sep + p) + j;
    Bracketed(a + sep, b + sep + p, j);
  }

  lemma Join3(a: string, b: string, c: string, sep: string)
    ensures Join([a, b, c], sep) == a + sep + b + sep + c
  {
    assert [a, b, c][1..] == [b, c];
    assert [b, c][1..] == [c];
  }

  /** Splitting the details at line breaks gives back the name, the age and
      the holiday entries, as long as no name or leave type holds a line
      break. */
  lemma DetailsTextLines(e: Employee, hs: seq<Holiday>)
    requires '\n' !in e.name
    requires forall i :: 0 <= i < |hs| ==> '\n' !in hs[i].kind
    ensures Split(DetailsText(e, hs), '\n') == DetailsLines(e, hs)
  {
    IntToStringNoBreak(e.age);
    forall i | 0 <= i < |hs|
      ensures '\n' !in HolidayEntries(hs)[i]
    {
      IntToStringNoBreak(hs[i].days);
    }
    JoinNoBreak(HolidayEntries(hs), ", ");
    var ls := DetailsLines(e, hs);
    assert '\n' !in ls[0] && '\n' !in ls[1] && '\n' !in ls[2];
    SplitJoin(ls, '\n');
  }

  lemma IntToStringNoBreak(n: int)
    ensures '\n' !in IntToString(n)
  {
    var r := IntToString(n);
    if n >= 0 {
      assert forall i :: 0 <= i < |r| ==> IsDigit(r[i]);
    } else {
      assert forall i :: 1 <= i < |r| ==> IsDigit(r[i]);
    }
  }

  lemma {:induction false} JoinNoBreak(parts: seq<string>, sep: string)
    requires '\n' !in sep
    requires forall i :: 0 <= i < |parts| ==> '\n' !in parts[i]
    ensures '\n' !in Join(parts, sep)
    decreases |parts|
  {
    if |parts| > 1 {
      JoinNoBreak(parts[1..], sep);
    }
  }

  /** The value stored under `key`, if any. */
  function LookupHoliday(hs: seq<Holiday>, key: string): (r: Option<int>)
    ensures r.Some? ==> exists i :: 0 <= i < |hs| && hs[i].kind == key && hs[i].days == r.value
    ensures r.None? <==> forall i :: 0 <= i < |hs| ==> hs[i].kind != key
  {
    if hs == [] then None
    else if hs[0].kind == key then Some(hs[0].days)
    else LookupHoliday(hs[1..], key)
  }

  /** The "holidays" object is a dict, so each leave type occurs once. */
  predicate DistinctKinds(hs: seq<Holiday>) {
    forall i, j :: 0 <= i < j < |hs| ==> hs[i].kind != hs[j].kind
  }

  /** With each type stored once, the lookup finds the entry of that type,
      wherever it sits: the first-match search is the dict's `get`. */
  lemma {:induction false} LookupHolidayFindsEntry(hs: seq<Holiday>, i: nat)
    requires DistinctKinds(hs) && i < |hs|
    ensures LookupHoliday(hs, hs[i].kind) == Some(hs[i].days)
    decreases i
  {
    if i > 0 {
      assert hs[0].kind != hs[i].kind;
      assert hs[1..][i - 1] == hs[i];
      LookupHolidayFindsEntry(hs[1..], i - 1);
    }
  }

  function HolidayNotFoundMessage(name: string, kind: string): string {
    "Holiday type '" + kind + "' not found for " + name + "."
  }

  function HolidayMessage(name: string, days: int, kind: string): string {
    name + " has " + IntToString(days) + " days of " + kind + " leave."
  }

  /** `get_holiday_by_type(name, holiday_type)`: the days stored under the
      lower-cased type. The reply quotes the name and type as given. */
  function GetHolidayByType(es: seq<Employee>, name: string, kind: string): (r: string)
    ensures FindEmployee(es, name).None? ==> r == NotFoundMessage(name)
    ensures FindEmployee(es, name).Some? ==>
              var e := es[FindEmployee(es, name).value];
              var hs := if e.holidays.Some? then e.holidays.value else [];
              && (LookupHoliday(hs, Lower(kind)).None? ==> r == HolidayNotFoundMessage(name, kind))
              && (LookupHoliday(hs, Lower(kind)).Some? ==>
                    r == HolidayMessage(name, LookupHoliday(hs, Lower(kind)).value, kind))
  {
    match FindEmployee(es, name)
    case None => NotFoundMessage(name)
    case Some(i) =>
      var hs := if es[i].holidays.Some? then es[i].holidays.value else [];
      match LookupHoliday(hs, Lower(kind))
      case None => HolidayNotFoundMessage(name, kind)
      case Some(v) => HolidayMessage(name, v, kind)
  }

  /** A type stored with an upper-case letter can never be retrieved: the
      requested type is lower-cased before the lookup, so no request names
      that key. */
  lemma UpperCaseKindUnreachable(h: Holiday, kind: string)
    requires h.kind != Lower(h.kind)
    ensures Lower(kind) != h.kind
  {
    LowerIdempotent(kind);
  }

  /** A holiday reported by type is one of the entries the details list,
      under the lower-cased type. */
  lemma HolidayAppearsInDetails(es: seq<Employee>, name: string, kind: string)
    requires FindEmployee(es, name).Some?
    requires es[FindEmployee(es, name).value].holidays.Some?
    requires LookupHoliday(es[FindEmployee(es, name).value].holidays.value, Lower(kind)).Some?
    ensures var hs := es[FindEmployee(es, name).value].holidays.value;
            HolidayEntry(Holiday(Lower(kind), LookupHoliday(hs, Lower(kind)).value)) in HolidayEntries(hs)
  {
    var hs := es[FindEmployee(es, name).value].holidays.value;
    var v := LookupHoliday(hs, Lower(kind)).value;
    var i :| 0 <= i < |hs| && hs[i].kind == Lower(kind) && hs[i].days == v;
    assert HolidayEntries(hs)[i] == HolidayEntry(Holiday(Lower(kind), v));
  }
}
