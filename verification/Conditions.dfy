/** WHERE and ON conditions: the values that are passed around by copy, and the object that grows them. */
module Conditions {
  import opened QtText

  datatype CompareOperator =
    Equals | NotEquals | Is | IsNot | Less | LessOrEqual | Greater | GreaterOrEqual | Like

  datatype LogicOperator = And | Or

  /** The variant values the builders tell apart. `Invalid` is the default-constructed variant, SQL's NULL. */
  datatype Variant = Invalid | Now | Uuid(id: string) | Text(text: string) | Other(code: int)

  datatype Condition = Condition(
    subs: seq<Condition>,
    column: string,
    comparedColumn: string,
    placeholder: string,
    value: Variant,
    compareOp: CompareOperator,
    logicOp: LogicOperator)

  /** What `addPlaceholderCondition` demands of a placeholder. */
  predicate UserPlaceholder(p: string) {
    |p| >= 2 && p[0] == ':' && !('0' <= p[1] <= '9')
  }

  /** Conditions the add methods can build: every leaf names a column, and a placeholder is a user placeholder. */
  predicate WellFormed(c: Condition) {
    if c.subs != [] then forall s <- c.subs :: WellFormed(s)
    else c.column != "" && (c.placeholder != "" ==> UserPlaceholder(c.placeholder))
  }

  function Leaf(column: string, op: CompareOperator): Condition {
    Condition([], column, "", "", Invalid, op, And)
  }

  function LowerCall(column: string): string {
    "LOWER( " + column + " ) "
  }

  function ValueLeaf(column: string, op: CompareOperator, value: Variant, caseSensitive: bool): Condition {
    if !caseSensitive && value.Text?
    then Leaf(LowerCall(column), op).(value := Text(Lower(value.text)))
    else Leaf(column, op).(value := value)
  }

  function PlaceholderLeaf(column: string, op: CompareOperator, placeholder: string, caseSensitive: bool): Condition {
    if caseSensitive
    then Leaf(column, op).(placeholder := placeholder)
    else Leaf(LowerCall(column), op).(placeholder := Lower(placeholder))
  }

  function ColumnLeaf(column: string, op: CompareOperator, column2: string): Condition {
    Leaf(column, op).(comparedColumn := column2)
  }

  /** The condition object of the library. Nested conditions are copies, so they are held as values. */
  class SqlCondition {
    var subConditions: seq<Condition>
    var column: string
    var comparedColumn: string
    var placeholder: string
    var comparedValue: Variant
    var compareOp: CompareOperator
    var logicOp: LogicOperator
    var isCaseSensitive: bool

    /** The value a copy of this object has. */
    function Snapshot(): Condition
      reads this
    {
      Condition(subConditions, column, comparedColumn, placeholder, comparedValue, compareOp, logicOp)
    }

    /** Either still empty, or a well-formed node. */
    predicate Valid()
      reads this
    {
      subConditions != [] ==> WellFormed(Snapshot())
    }

    constructor (op: LogicOperator)
      ensures Snapshot() == Leaf("", Equals).(logicOp := op)
      ensures isCaseSensitive && Valid()
    {
      subConditions, column, comparedColumn, placeholder := [], "", "", "";
      comparedValue, compareOp, logicOp, isCaseSensitive := Invalid, Equals, op, true;
    }

    method AddValueCondition(column: string, op: CompareOperator, value: Variant)
      requires Valid() && column != ""
      modifies this`subConditions
      ensures Valid()
      ensures subConditions == old(subConditions) + [ValueLeaf(column, op, value, isCaseSensitive)]
      ensures var c := subConditions[|old(subConditions)|];
        && c.subs == [] && c.compareOp == op && c.comparedColumn == "" && c.placeholder == ""
        && (isCaseSensitive || !value.Text? ==> c.column == column && c.value == value)
        && (!isCaseSensitive && value.Text? ==> c.column == "LOWER( " + column + " ) " && c.value == Text(Lower(value.text)))
    {
      var c := Leaf("", op);
      if !isCaseSensitive && value.Text? {
        c := c.(value := Text(Lower(value.text)), column := LowerCall(column));
      } else {
        c := c.(value := value, column := column);
      }
      subConditions := subConditions + [c];
    }

    method AddPlaceholderCondition(column: string, op: CompareOperator, placeholder: string)
      requires Valid() && column != "" && UserPlaceholder(placeholder)
      modifies this`subConditions
      ensures Valid()
      ensures subConditions == old(subConditions) + [PlaceholderLeaf(column, op, placeholder, isCaseSensitive)]
      ensures var c := subConditions[|old(subConditions)|];
        && c.subs == [] && c.compareOp == op && c.comparedColumn == "" && c.value == Invalid
        && (isCaseSensitive ==> c.column == column && c.placeholder == placeholder)
        && (!isCaseSensitive ==> c.column == "LOWER( " + column + " ) " && c.placeholder == Lower(placeholder))
    {
      var c := Leaf("", op);
      if isCaseSensitive {
        c := c.(placeholder := placeholder, column := column);
      } else {
        c := c.(placeholder := Lower(placeholder), column := LowerCall(column));
      }
      subConditions := subConditions + [c];
    }

    method AddColumnCondition(column: string, op: CompareOperator, column2: string)
      requires Valid() && column != "" && column2 != ""
      modifies this`subConditions
      ensures Valid()
      ensures subConditions == old(subConditions) + [ColumnLeaf(column, op, column2)]
      ensures var c := subConditions[|old(subConditions)|];
        && c.subs == [] && c.compareOp == op && c.column == column && c.comparedColumn == column2
        && c.value == Invalid && c.placeholder == ""
    {
      subConditions := subConditions + [ColumnLeaf(column, op, column2)];
    }

    /** Appends a copy of a nested condition; an empty one becomes a leaf without a column. */
    method AddCondition(condition: SqlCondition)
      requires Valid()
      modifies this`subConditions
      ensures old(WellFormed(condition.Snapshot())) ==> Valid()
      ensures subConditions == old(subConditions) + [old(condition.Snapshot())]
    {
      subConditions := subConditions + [condition.Snapshot()];
    }

    method SetLogicOperator(op: LogicOperator)
      requires Valid()
      modifies this`logicOp
      ensures Valid() && logicOp == op
    {
      logicOp := op;
    }

    method SetCaseSensitive(flag: bool)
      requires Valid()
      modifies this`isCaseSensitive
      ensures Valid() && isCaseSensitive == flag
    {
      isCaseSensitive := flag;
    }
  }
}
