/** `dashboard_stats` of analytics/views.py: a total and three group-by counts. */
module Analytics {
  import opened Wrappers
  import opened Errors
  import opened Seqs
  import opened Sorting
  import opened Grouping
  import opened Permissions
  import opened Incidents

  /** The payload: `total_incidents`, `by_status`, `by_category`, `by_city`; each
      mapping is a list of rows in the order the dictionary is built. */
  datatype Dashboard = Dashboard(
    totalIncidents: nat,
    byStatus: seq<Row<Status>>,
    byCategory: seq<Row<Category>>,
    byCity: seq<Row<string>>)

  /** The `status` column of the incidents. */
  function StatusColumn(incs: seq<Incident>): (r: seq<Status>)
    ensures |r| == |incs|
    ensures forall i | 0 <= i < |incs| :: r[i] == incs[i].status
  {
    seq(|incs|, i requires 0 <= i < |incs| => incs[i].status)
  }

  function CategoryColumn(incs: seq<Incident>): (r: seq<Category>)
    ensures |r| == |incs|
    ensures forall i | 0 <= i < |incs| :: r[i] == incs[i].category
  {
    seq(|incs|, i requires 0 <= i < |incs| => incs[i].category)
  }

  function CityColumn(incs: seq<Incident>): (r: seq<string>)
    ensures |r| == |incs|
    ensures forall i | 0 <= i < |incs| :: r[i] == incs[i].city
  {
    seq(|incs|, i requires 0 <= i < |incs| => incs[i].city)
  }

  /** `.order_by("-count")`. */
  function ByCountDescending(r: Row<string>): int {
    -(r.count as int)
  }

  /** Counts by status: one row per status that occurs, and they add up to the total. */
  function StatusCounts(incs: seq<Incident>): (rows: seq<Row<Status>>)
    ensures SumRows(rows) == |incs|
    ensures DistinctKeys(rows)
    ensures forall r | r in rows :: r.count >= 1 && r.count == Count(StatusColumn(incs), r.key)
    ensures forall s: Status | s in StatusColumn(incs) :: Row(s, Count(StatusColumn(incs), s)) in rows
  {
    var column := StatusColumn(incs);
    assert forall s | s in column :: s in AllStatuses by {
      forall s | s in column ensures s in AllStatuses {
        EnumerationsAreComplete(s, Other);
      }
    }
    EnumerationsAreComplete(Pending, Other);
    GroupPartitions(column, AllStatuses);
    Group(column, AllStatuses)
  }

  /** Counts by category: one row per category that occurs, adding up to the total. */
  function CategoryCounts(incs: seq<Incident>): (rows: seq<Row<Category>>)
    ensures SumRows(rows) == |incs|
    ensures DistinctKeys(rows)
    ensures forall r | r in rows :: r.count >= 1 && r.count == Count(CategoryColumn(incs), r.key)
    ensures forall c: Category | c in CategoryColumn(incs) :: Row(c, Count(CategoryColumn(incs), c)) in rows
  {
    var column := CategoryColumn(incs);
    assert forall c | c in column :: c in AllCategories by {
      forall c | c in column ensures c in AllCategories {
        EnumerationsAreComplete(Pending, c);
      }
    }
    EnumerationsAreComplete(Pending, Other);
    GroupPartitions(column, AllCategories);
    Group(column, AllCategories)
  }

  /** The non-empty cities of `incs`, with repeats. */
  function NamedCities(incs: seq<Incident>): seq<string> {
    Without(CityColumn(incs), "")
  }

  /** One row per non-empty city, most reported first. */
  function CityRows(incs: seq<Incident>): seq<Row<string>> {
    SortByKey(Group(NamedCities(incs), Distinct(NamedCities(incs))), ByCountDescending)
  }

  lemma CityRowsSum(incs: seq<Incident>)
    ensures SumRows(CityRows(incs)) == |incs| - Count(CityColumn(incs), "")
  {
    var cities := NamedCities(incs);
    GroupPartitions(cities, Distinct(cities));
    SumRowsSorted(Group(cities, Distinct(cities)), ByCountDescending);
  }

  lemma CityRowsDistinct(incs: seq<Incident>)
    ensures DistinctKeys(CityRows(incs))
  {
    var cities := NamedCities(incs);
    SortKeepsKeysDistinct(Group(cities, Distinct(cities)), ByCountDescending, RowKey);
  }

  lemma CityRowsExact(incs: seq<Incident>)
    ensures forall r | r in CityRows(incs) :: r.key != "" && r.count >= 1 && r.count == Count(CityColumn(incs), r.key)
  {
    var cities := NamedCities(incs);
    assert forall r | r in CityRows(incs) :: r in Group(cities, Distinct(cities));
  }

  lemma CityRowsCover(incs: seq<Incident>)
    ensures forall c | c in CityColumn(incs) && c != "" :: Row(c, Count(CityColumn(incs), c)) in CityRows(incs)
  {
    var cities := NamedCities(incs);
    assert forall c | c in CityColumn(incs) && c != "" :: c in cities && c in Distinct(cities);
  }

  lemma CityRowsOrdered(incs: seq<Incident>)
    ensures var rows := CityRows(incs);
      forall i, j | 0 <= i < j < |rows| :: rows[i].count >= rows[j].count
  {
    var rows := CityRows(incs);
    assert forall i, j | 0 <= i < j < |rows| :: ByCountDescending(rows[i]) <= ByCountDescending(rows[j]);
  }

  /** Counts by city, leaving out the empty city, most reported city first. The
      counts add up to the number of incidents with a non-empty city. */
  function CityCounts(incs: seq<Incident>): (rows: seq<Row<string>>)
    ensures SumRows(rows) == |incs| - Count(CityColumn(incs), "")
    ensures DistinctKeys(rows)
    ensures forall r | r in rows :: r.key != "" && r.count >= 1 && r.count == Count(CityColumn(incs), r.key)
    ensures forall c | c in CityColumn(incs) && c != "" :: Row(c, Count(CityColumn(incs), c)) in rows
    ensures forall i, j | 0 <= i < j < |rows| :: rows[i].count >= rows[j].count
  {
    CityRowsSum(incs);
    CityRowsDistinct(incs);
    CityRowsExact(incs);
    CityRowsCover(incs);
    CityRowsOrdered(incs);
    CityRows(incs)
  }

  /** The statistics over every incident of the store. */
  function ComputeDashboard(st: Store): (d: Dashboard)
    ensures d.totalIncidents == |st.incidents|
    ensures SumRows(d.byStatus) == d.totalIncidents
    ensures SumRows(d.byCategory) == d.totalIncidents
    ensures SumRows(d.byCity) == d.totalIncidents - Count(CityColumn(st.incidents), "")
    ensures forall r | r in d.byStatus :: r.count >= 1
    ensures forall r | r in d.byCategory :: r.count >= 1
    ensures forall r | r in d.byCity :: r.key != "" && r.count >= 1
    ensures forall i, j | 0 <= i < j < |d.byCity| :: d.byCity[i].count >= d.byCity[j].count
  {
    Dashboard(|st.incidents|, StatusCounts(st.incidents), CategoryCounts(st.incidents), CityCounts(st.incidents))
  }

  /** `dashboard_stats`, admin only. */
  function DashboardStats(st: Store, p: Principal): (r: Result<Dashboard, Error>)
    ensures r.Success? <==> IsAdminRole(p)
    ensures r.Failure? ==> r.error == Deny(p)
    ensures r.Success? ==> r.value == ComputeDashboard(st)
    ensures r.Success? ==> r.value.totalIncidents == |st.incidents|
  {
    if !IsAdminRole(p) then Failure(Deny(p)) else Success(ComputeDashboard(st))
  }
}
