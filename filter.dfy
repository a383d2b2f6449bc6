/** The derived, read-only view of the board: `isFiltering` and the
    `filteredColumns` projection (search text, label filter, due-date filter). */
module BoardFilter {
  import opened TaskTypes
  import opened Text
  import Seqs

  /** The UI's filter options. Only `labelName` and `dueDate` take part in
      filtering; `assignee` is held but never consulted. */
  datatype FilterOptions = FilterOptions(assignee: string, labelName: string, dueDate: string)

  /** The date formatting `matchDateQuery` performs on a due date: the textual
      variants it searches (two long-month forms, the short locale form and the
      ISO calendar date), or `None` when formatting throws on an invalid date. */
  type DateFormats = string -> Option<seq<string>>

  /** `searchQuery.toLowerCase().trim()`. */
  function NormalizedQuery(searchQuery: string): string {
    Trim(ToLower(searchQuery))
  }

  /** `isFiltering`: a non-blank search text, a label filter or a due-date filter. */
  predicate IsFiltering(searchQuery: string, options: FilterOptions) {
    NormalizedQuery(searchQuery) != [] || options.labelName != [] || options.dueDate != []
  }

  /** The search counts as active exactly when the text has a non-whitespace
      character; the assignee filter never makes the view a filtered one. */
  lemma IsFilteringIff(searchQuery: string, options: FilterOptions)
    ensures IsFiltering(searchQuery, options) <==>
      (exists k :: 0 <= k < |searchQuery| && !IsWhitespace(searchQuery[k])) ||
      options.labelName != [] || options.dueDate != []
  {
    var lower := ToLower(searchQuery);
    TrimEmptyIff(lower);
    ToLowerWhitespace(searchQuery);
    if NormalizedQuery(searchQuery) == [] {
      forall k | 0 <= k < |searchQuery| ensures IsWhitespace(searchQuery[k]) {
        assert IsWhitespace(lower[k]);
      }
    } else {
      var k :| 0 <= k < |lower| && !IsWhitespace(lower[k]);
      assert !IsWhitespace(searchQuery[k]);
    }
  }

  /** `matchDateQuery(taskDate, query)`: false for an empty date or one whose
      formatting throws, otherwise whether some lower-cased variant includes
      the query. */
  predicate MatchDateQuery(taskDate: string, query: string, formats: DateFormats) {
    taskDate != [] &&
    match formats(taskDate)
    case None => false
    case Some(variants) => exists v :: v in variants && Contains(ToLower(v), query)
  }

  /** `task.priority?.toLowerCase() || ""` before lower-casing. */
  function PriorityText(p: Option<Priority>): string {
    if p.Some? then PriorityName(p.value) else []
  }

  /** The search part of the filter: the query is empty, or a field of the task
      includes it after lower-casing, or its due date matches. */
  predicate MatchesSearch(t: Task, query: string, formats: DateFormats) {
    query == [] ||
    Contains(ToLower(t.title), query) ||
    Contains(ToLower(t.description), query) ||
    Contains(ToLower(t.assignee), query) ||
    Contains(ToLower(LabelName(t.taskLabel)), query) ||
    Contains(ToLower(PriorityText(t.priority)), query) ||
    MatchDateQuery(t.dueDate, query, formats)
  }

  /** No label filter, or the label is exactly the filter string (case-sensitive). */
  predicate MatchesLabel(t: Task, options: FilterOptions) {
    options.labelName == [] || LabelName(t.taskLabel) == options.labelName
  }

  /** No due-date filter, or the due date is exactly the filter string. */
  predicate MatchesDueDate(t: Task, options: FilterOptions) {
    options.dueDate == [] || t.dueDate == options.dueDate
  }

  predicate Visible(t: Task, query: string, options: FilterOptions, formats: DateFormats) {
    MatchesSearch(t, query, formats) && MatchesLabel(t, options) && MatchesDueDate(t, options)
  }

  /** The filter's callback, as one function value. */
  function VisibleIn(query: string, options: FilterOptions, formats: DateFormats): Task -> bool {
    t => Visible(t, query, options, formats)
  }

  function FilterColumn(c: Column, query: string, options: FilterOptions, formats: DateFormats): Column {
    c.(tasks := Seqs.Filter(c.tasks, VisibleIn(query, options, formats)))
  }

  /** `filteredColumns`: the board itself when nothing filters; otherwise the
      same columns, in the same order and with the same ids and titles, each
      keeping the tasks the filter accepts. */
  function FilteredColumns(columns: seq<Column>, searchQuery: string, options: FilterOptions,
                           formats: DateFormats): (r: seq<Column>)
    ensures !IsFiltering(searchQuery, options) ==> r == columns
    ensures |r| == |columns|
    ensures forall i :: 0 <= i < |r| ==> r[i].id == columns[i].id && r[i].title == columns[i].title
  {
    if !IsFiltering(searchQuery, options) then columns
    else
      var query := NormalizedQuery(searchQuery);
      seq(|columns|, i requires 0 <= i < |columns| => FilterColumn(columns[i], query, options, formats))
  }

  /** Each visible column's tasks are an order-preserving subsequence of the
      column's tasks on the board. */
  lemma FilteredSubsequence(columns: seq<Column>, searchQuery: string, options: FilterOptions,
                            formats: DateFormats, i: nat)
    requires i < |columns|
    ensures Seqs.IsSubsequence(FilteredColumns(columns, searchQuery, options, formats)[i].tasks,
                               columns[i].tasks)
  {
    var r := FilteredColumns(columns, searchQuery, options, formats);
    if IsFiltering(searchQuery, options) {
      Seqs.FilterIsSubsequence(columns[i].tasks, VisibleIn(NormalizedQuery(searchQuery), options, formats));
    } else {
      Seqs.Reflexive(columns[i].tasks);
    }
  }

  /** While filtering, a task is shown in a column exactly when it is in that
      column on the board and passes the search, the label filter and the
      due-date filter; it is shown as often as it occurs there. */
  lemma FilteredMembers(columns: seq<Column>, searchQuery: string, options: FilterOptions,
                        formats: DateFormats, i: nat, t: Task)
    requires i < |columns| && IsFiltering(searchQuery, options)
    ensures var shown := FilteredColumns(columns, searchQuery, options, formats)[i].tasks;
      var query := NormalizedQuery(searchQuery);
      (t in shown <==> t in columns[i].tasks && MatchesSearch(t, query, formats) &&
                       MatchesLabel(t, options) && MatchesDueDate(t, options)) &&
      multiset(shown)[t] == if Visible(t, query, options, formats) then multiset(columns[i].tasks)[t] else 0
  {
    var p := VisibleIn(NormalizedQuery(searchQuery), options, formats);
    Seqs.FilterMembers(columns[i].tasks, p, t);
    Seqs.FilterMultiplicity(columns[i].tasks, p, t);
  }

  /** The assignee option plays no part in filtering one column. */
  lemma FilterColumnAssignee(c: Column, query: string, options: FilterOptions,
                             formats: DateFormats, assignee: string)
    ensures FilterColumn(c, query, options.(assignee := assignee), formats) ==
            FilterColumn(c, query, options, formats)
  {
    var p := VisibleIn(query, options.(assignee := assignee), formats);
    var q := VisibleIn(query, options, formats);
    forall k | 0 <= k < |c.tasks| ensures p(c.tasks[k]) == q(c.tasks[k]) {
    }
    Seqs.FilterCongruent(c.tasks, p, q);
  }

  /** Setting or clearing the assignee filter never changes the view. */
  lemma AssigneeIgnored(columns: seq<Column>, searchQuery: string, options: FilterOptions,
                        formats: DateFormats, assignee: string)
    ensures FilteredColumns(columns, searchQuery, options.(assignee := assignee), formats) ==
            FilteredColumns(columns, searchQuery, options, formats)
  {
    var other := options.(assignee := assignee);
    assert IsFiltering(searchQuery, other) == IsFiltering(searchQuery, options);
    if IsFiltering(searchQuery, options) {
      var query := NormalizedQuery(searchQuery);
      var a := FilteredColumns(columns, searchQuery, other, formats);
      var b := FilteredColumns(columns, searchQuery, options, formats);
      forall i | 0 <= i < |columns| ensures a[i] == b[i] {
        FilterColumnAssignee(columns[i], query, options, formats, assignee);
      }
      assert |a| == |b|;
    }
  }

  /** With a label filter set, every shown task carries exactly that label. */
  lemma LabelFilterExact(columns: seq<Column>, searchQuery: string, options: FilterOptions,
                         formats: DateFormats, i: nat, k: nat)
    requires options.labelName != []
    requires i < |columns|
    requires k < |FilteredColumns(columns, searchQuery, options, formats)[i].tasks|
    ensures LabelName(FilteredColumns(columns, searchQuery, options, formats)[i].tasks[k].taskLabel)
            == options.labelName
  {
    var shown := FilteredColumns(columns, searchQuery, options, formats)[i].tasks;
    var query := NormalizedQuery(searchQuery);
    FilteredMembers(columns, searchQuery, options, formats, i, shown[k]);
  }

  /** A label filter differing from a label's literal only in case shows no
      task with that label: `"bug"` does not select tasks labelled `Bug`. */
  lemma LabelFilterCaseSensitive(columns: seq<Column>, searchQuery: string, formats: DateFormats,
                                 i: nat, t: Task)
    requires i < |columns| && t.taskLabel == Bug
    ensures t !in FilteredColumns(columns, searchQuery, FilterOptions("", "bug", ""), formats)[i].tasks
  {
    var options := FilterOptions("", "bug", "");
    FilteredMembers(columns, searchQuery, options, formats, i, t);
    assert LabelName(Bug) != "bug" by {
      assert LabelName(Bug)[0] == 'B';
    }
  }

  /** A task with no due date is never matched by date text. */
  lemma NoDateNoDateMatch(query: string, formats: DateFormats)
    ensures !MatchDateQuery([], query, formats)
  {
  }
}
