/**
 * A `<commonFilter/>` contribution of the navigator content extension point:
 * its identifier, name, description and default activation, and the rule
 * by which it creates its viewer filter.
 */
module Filters {
  import opened Wrappers
  import opened ConfigurationElements
  import opened JavaLang

  /** The Core Expression read from a `filterExpression` child; its evaluation is not modelled. */
  datatype Expression = CustomAndExpression(definition: ConfigElement)

  /** A viewer filter: one that evaluates an expression, an instance of the contributed class, or the filter that hides nothing. */
  datatype ViewerFilter =
    | CoreExpressionFilter(expression: Expression)
    | ContributedFilter(instance: nat)
    | SkeletonViewerFilter

  /** What instantiating the `class` attribute yields: an object, or the exception it raises. */
  datatype Instantiation =
    | Created(instance: nat)
    | RuntimeFailure(message: Option<string>)
    | CoreFailure(message: Option<string>)

  datatype LogEntry = Warning(text: string) | Error(message: Option<string>)

  /** A created filter together with what was logged while creating it. */
  datatype FilterCreation = FilterCreation(filter: ViewerFilter, log: seq<LogEntry>)

  const WARNING_HEAD: string := "A <commonFilter /> was specified in "
  const WARNING_TAIL: string :=
    " which specifies a \"class\" attribute and an Core Expression.\nOnly the Core Expression will be respected."

  /** The warning for a contribution that gives both a `class` attribute and a Core Expression; it names the declaring namespace. */
  function ClassIgnoredWarning(namespace: string): (r: string)
    ensures |r| == |WARNING_HEAD| + |namespace| + |WARNING_TAIL|
    ensures r[..|WARNING_HEAD|] == WARNING_HEAD
    ensures r[|WARNING_HEAD|..|WARNING_HEAD| + |namespace|] == namespace
    ensures r[|WARNING_HEAD| + |namespace|..] == WARNING_TAIL
  {
    WARNING_HEAD + namespace + WARNING_TAIL
  }

  const PREFIX: string := "CommonFilterDescriptor["

  class CommonFilterDescriptor {
    const element: ConfigElement
    var filterExpression: Option<Expression>
    var id: string

    /** What `Init` establishes: the id defaults to "", and an expression is recorded only for a single child. */
    ghost predicate Valid()
      reads this
    {
      && (ATT_ID in element.attributes ==> id == element.attributes[ATT_ID])
      && (ATT_ID !in element.attributes ==> id == "")
      && (filterExpression.Some? <==> |element.GetChildren(TAG_FILTER_EXPRESSION)| == 1)
      && (filterExpression.Some? ==>
            filterExpression.value == CustomAndExpression(element.GetChildren(TAG_FILTER_EXPRESSION)[0]))
    }

    constructor (anElement: ConfigElement)
      ensures element == anElement && Valid()
    {
      element := anElement;
      filterExpression := None;
      id := "";
      new;
      Init();
    }

    method Init()
      requires filterExpression == None
      modifies this
      ensures Valid()
    {
      var attribute := element.GetAttribute(ATT_ID);
      if attribute.None? {
        id := "";
      } else {
        id := attribute.value;
      }
      var children := element.GetChildren(TAG_FILTER_EXPRESSION);
      if |children| == 1 {
        filterExpression := Some(CustomAndExpression(children[0]));
      }
    }

    /** The identifier; never null. */
    function GetId(): (r: string)
      reads this
      requires Valid()
      ensures ATT_ID in element.attributes ==> r == element.attributes[ATT_ID]
      ensures ATT_ID !in element.attributes ==> r == ""
    {
      id
    }

    /** The `name` attribute as given, or null. */
    function GetName(): (r: Option<string>)
      ensures r.Some? <==> ATT_NAME in element.attributes
      ensures r.Some? ==> r.value == element.attributes[ATT_NAME]
    {
      element.GetAttribute(ATT_NAME)
    }

    /** The `description` attribute as given, or null. */
    function GetDescription(): (r: Option<string>)
      ensures r.Some? <==> ATT_DESCRIPTION in element.attributes
      ensures r.Some? ==> r.value == element.attributes[ATT_DESCRIPTION]
    {
      element.GetAttribute(ATT_DESCRIPTION)
    }

    /** Active by default exactly when `activeByDefault` is given and spells "true" in any case. */
    function IsActiveByDefault(): (r: bool)
      ensures r <==> ATT_ACTIVE_BY_DEFAULT in element.attributes && IsTrueSpelling(element.attributes[ATT_ACTIVE_BY_DEFAULT])
    {
      ParseBoolean(element.GetAttribute(ATT_ACTIVE_BY_DEFAULT))
    }

    /**
     * The filter this contribution defines: its Core Expression when it has
     * one (a `class` attribute beside it is ignored with a warning),
     * otherwise the instance of its `class`; a failed instantiation is
     * logged and yields the skeleton filter.
     */
    function CreateFilter(instantiation: Instantiation): (r: FilterCreation)
      reads this
      requires Valid()
      ensures |element.GetChildren(TAG_FILTER_EXPRESSION)| == 1 ==>
        r.filter == CoreExpressionFilter(CustomAndExpression(element.GetChildren(TAG_FILTER_EXPRESSION)[0]))
      ensures |element.GetChildren(TAG_FILTER_EXPRESSION)| == 1 ==>
        r.log == if ATT_CLASS in element.attributes then [Warning(ClassIgnoredWarning(element.namespace))] else []
      ensures |element.GetChildren(TAG_FILTER_EXPRESSION)| != 1 && instantiation.Created? ==>
        r.filter == ContributedFilter(instantiation.instance) && r.log == []
      ensures |element.GetChildren(TAG_FILTER_EXPRESSION)| != 1 && !instantiation.Created? ==>
        r.filter == SkeletonViewerFilter && r.log == [Error(instantiation.message)]
      ensures r.filter == SkeletonViewerFilter <==> |element.GetChildren(TAG_FILTER_EXPRESSION)| != 1 && !instantiation.Created?
      ensures (exists i :: 0 <= i < |r.log| && r.log[i].Warning?) <==>
        |element.GetChildren(TAG_FILTER_EXPRESSION)| == 1 && ATT_CLASS in element.attributes
      ensures forall i | 0 <= i < |r.log| && r.log[i].Warning? :: r.log[i].text == ClassIgnoredWarning(element.namespace)
    {
      if filterExpression.Some? then
        var warnings := if element.GetAttribute(ATT_CLASS).Some? then [Warning(ClassIgnoredWarning(element.namespace))] else [];
        assert warnings != [] ==> 0 < |warnings| && warnings[0].Warning?;
        FilterCreation(CoreExpressionFilter(filterExpression.value), warnings)
      else
        match instantiation
        case Created(instance) => FilterCreation(ContributedFilter(instance), [])
        case RuntimeFailure(message) => FilterCreation(SkeletonViewerFilter, [Error(message)])
        case CoreFailure(message) => FilterCreation(SkeletonViewerFilter, [Error(message)])
    }

    /** "CommonFilterDescriptor[" + name + " (" + id + ")]", a null name showing as "null". */
    function ToString(): (r: string)
      reads this
      requires Valid()
      ensures var n, i := JavaString(GetName()), GetId();
        && |r| == |PREFIX| + |n| + 2 + |i| + 2
        && r[..|PREFIX|] == PREFIX
        && r[|PREFIX|..|PREFIX| + |n|] == n
        && r[|PREFIX| + |n|..|PREFIX| + |n| + 2] == " ("
        && r[|PREFIX| + |n| + 2..|r| - 2] == i
        && r[|r| - 2..] == ")]"
    {
      PREFIX + JavaString(GetName()) + " (" + GetId() + ")]"
    }
  }

  /** With a Core Expression, the outcome of instantiating the `class` attribute plays no part. */
  lemma ExpressionBeatsClass(fd: CommonFilterDescriptor, i1: Instantiation, i2: Instantiation)
    requires fd.Valid() && |fd.element.GetChildren(TAG_FILTER_EXPRESSION)| == 1
    ensures fd.CreateFilter(i1) == fd.CreateFilter(i2)
  {
  }

  /** A descriptor without a name prints it as "null". */
  lemma ToStringOfUnnamed(fd: CommonFilterDescriptor)
    requires fd.Valid() && ATT_NAME !in fd.element.attributes
    ensures fd.ToString() == PREFIX + "null (" + fd.GetId() + ")]"
  {
  }
}
