/**
 * `extract_partition_column` (httpcachefs/smart_parquet/utils.py): the
 * column a query filters on, used to prune row groups. The SQL parser is
 * not modelled; its result is given as a `ParseOutcome`: the parse failed
 * (any exception), the query has no WHERE clause, or the WHERE clause's
 * equality and IN nodes in the order the parser's search visits them.
 */
module PartitionColumn {
  import opened Options

  /** An operand of a condition: a (possibly table-qualified) column, or anything else. */
  datatype Expr =
    | Column(table: Option<string>, name: string)
    | Other

  /** An equality `left = right`, or `subject IN (...)`. */
  datatype Condition =
    | Eq(left: Expr, right: Expr)
    | In(subject: Expr)

  datatype ParseOutcome =
    | ParseFailed
    | NoWhere
    | Where(conditions: seq<Condition>)

  /** A condition that names the partition column: an equality with a column on the left, or an IN on a column. */
  predicate Qualifies(c: Condition)
  {
    (c.Eq? && c.left.Column?) || (c.In? && c.subject.Column?)
  }

  /** The unqualified name of the column a qualifying condition is about. */
  function ColumnName(c: Condition): string
    requires Qualifies(c)
  {
    if c.Eq? then c.left.name else c.subject.name
  }

  /** `name` is the column of the first qualifying condition of `conds`. */
  ghost predicate IsFirstColumn(conds: seq<Condition>, name: string)
  {
    exists i :: 0 <= i < |conds| && Qualifies(conds[i]) && name == ColumnName(conds[i]) &&
      forall j :: 0 <= j < i ==> !Qualifies(conds[j])
  }

  /** The loop over the conditions, returning at the first column it finds. */
  function FirstColumn(conds: seq<Condition>): (r: Option<string>)
    ensures r.None? <==> forall i :: 0 <= i < |conds| ==> !Qualifies(conds[i])
    ensures r.Some? ==> IsFirstColumn(conds, r.value)
    ensures forall name :: IsFirstColumn(conds, name) ==> r == Some(name)
  {
    if conds == [] then None
    else
      var column :=
        match conds[0]
        case Eq(left, _) => if left.Column? then Some(left) else None
        case In(subject) => if subject.Column? then Some(subject) else None;
      if column.Some? then
        assert Qualifies(conds[0]);
        Some(column.value.name)
      else
        var r := FirstColumn(conds[1..]);
        assert forall i :: 1 <= i < |conds| ==> conds[i] == conds[1..][i - 1];
        if r.Some? then
          var k :| 0 <= k < |conds| - 1 && Qualifies(conds[1..][k]) && r.value == ColumnName(conds[1..][k]) &&
            forall j :: 0 <= j < k ==> !Qualifies(conds[1..][j]);
          assert Qualifies(conds[k + 1]) && forall j :: 0 <= j < k + 1 ==> !Qualifies(conds[j]);
          r
        else r
  }

  /**
   * `extract_partition_column`: `None` when parsing fails, when there is no
   * WHERE clause, or when no condition qualifies; otherwise the unqualified
   * name of the first qualifying condition's column.
   */
  function ExtractPartitionColumn(parsed: ParseOutcome): (r: Option<string>)
    ensures !parsed.Where? ==> r.None?
    ensures parsed.Where? ==>
      (r.None? <==> forall i :: 0 <= i < |parsed.conditions| ==> !Qualifies(parsed.conditions[i]))
    ensures parsed.Where? && r.Some? ==> IsFirstColumn(parsed.conditions, r.value)
    ensures parsed.Where? ==> forall name :: IsFirstColumn(parsed.conditions, name) ==> r == Some(name)
  {
    match parsed
    case ParseFailed => None
    case NoWhere => None
    case Where(conditions) => FirstColumn(conditions)
  }

  /** An equality whose column stands only on the right, such as `1 = id`, is passed over. */
  lemma RightHandColumnSkipped(left: Expr, right: Expr, rest: seq<Condition>)
    requires !left.Column?
    ensures ExtractPartitionColumn(Where([Eq(left, right)] + rest)) == ExtractPartitionColumn(Where(rest))
  {
    assert ([Eq(left, right)] + rest)[1..] == rest;
  }

  /** `WHERE table.id = 1 AND status = 2` gives the unqualified `id`. */
  lemma ExampleQualifiedColumn()
    ensures ExtractPartitionColumn(Where([
      Eq(Column(Some("table"), "id"), Other),
      Eq(Column(None, "status"), Other)])) == Some("id")
  {
  }

  /** `WHERE 1 = uuid AND key IN (...)` gives `key`. */
  lemma ExampleInAfterRightHandColumn()
    ensures ExtractPartitionColumn(Where([
      Eq(Other, Column(None, "uuid")),
      In(Column(None, "key"))])) == Some("key")
  {
    RightHandColumnSkipped(Other, Column(None, "uuid"), [In(Column(None, "key"))]);
  }
}
