/** The configuration of one batch and the builder that validates and completes it. */
module BatchConfigurations {
  import opened Outcomes
  import opened BatchTypes
  import opened StringUtils

  datatype BatchConfiguration = BatchConfiguration(
    name: string,
    batchType: BatchType,
    className: string,
    interval: string,
    modulate: bool,
    enableStatistics: bool)

  /** The builder's fields; `None` is a field left `null`. */
  datatype Builder = Builder(
    name: Option<string>,
    batchType: Option<BatchType>,
    className: Option<string>,
    interval: Option<string>,
    modulate: bool,
    enableStatistics: bool)

  const MSG_TYPE_CANNOT_BE_NULL: string := "the batch type cannot be null"
  const MSG_CLASS_NAME_CANNOT_BE_NULL: string := "the class name cannot be null"

  /** What every built configuration satisfies: a name, a class and an interval. */
  predicate Complete(c: BatchConfiguration)
  {
    |c.name| > 0 && |c.className| > 0 && |c.interval| > 0
  }

  /** `build`: the type is checked first, then the class name; an empty name becomes
      the class name and an empty interval the type's default. */
  function Build(b: Builder): (r: Result<BatchConfiguration>)
    ensures b.batchType.None? ==> r == Failure(NullPointer(MSG_TYPE_CANNOT_BE_NULL))
    ensures b.batchType.Some? && IsEmpty(b.className) ==> r == Failure(Configuration(MSG_CLASS_NAME_CANNOT_BE_NULL))
    ensures r.Success? <==> b.batchType.Some? && IsNotEmpty(b.className)
    ensures r.Success? ==>
              && Complete(r.value)
              && Some(r.value.className) == b.className
              && Some(r.value.batchType) == b.batchType
              && r.value.modulate == b.modulate
              && r.value.enableStatistics == b.enableStatistics
              && (IsNotEmpty(b.name) ==> Some(r.value.name) == b.name)
              && (IsEmpty(b.name) ==> r.value.name == r.value.className)
              && (IsNotEmpty(b.interval) ==> Some(r.value.interval) == b.interval)
              && (IsEmpty(b.interval) ==> r.value.interval == DefaultInterval(r.value.batchType))
  {
    if b.batchType.None? then Failure(NullPointer(MSG_TYPE_CANNOT_BE_NULL))
    else if IsEmpty(b.className) then Failure(Configuration(MSG_CLASS_NAME_CANNOT_BE_NULL))
    else
      var t := b.batchType.value;
      var name := if IsEmpty(b.name) then DefaultIfEmpty(b.name, b.className) else b.name;
      var interval := if IsEmpty(b.interval) then Some(DefaultInterval(t)) else b.interval;
      Success(BatchConfiguration(name.value, t, b.className.value, interval.value, b.modulate, b.enableStatistics))
  }

  /** The builder holding a configuration's fields. */
  function ToBuilder(c: BatchConfiguration): (b: Builder)
    ensures b.batchType == Some(c.batchType) && b.className == Some(c.className)
  {
    Builder(Some(c.name), Some(c.batchType), Some(c.className), Some(c.interval), c.modulate, c.enableStatistics)
  }

  /** Defaulting is idempotent: rebuilding a built configuration gives it back. */
  lemma BuildIdempotent(b: Builder)
    requires Build(b).Success?
    ensures Build(ToBuilder(Build(b).value)) == Build(b)
  {
  }

  /** A complete configuration is a fixed point of building. */
  lemma BuildKeepsComplete(c: BatchConfiguration)
    requires Complete(c)
    ensures Build(ToBuilder(c)) == Success(c)
  {
  }
}
