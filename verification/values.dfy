/** Configuration values as the host hands them to a channel's configuration handler,
    and the two runtime faults the handler's unchecked casts can raise. */
module Values {

  datatype Option<+T> = None | Some(value: T)

  /** The Java runtime exceptions a cast of a configuration value to a
      primitive `boolean` can throw. */
  datatype Fault = NullPointer | ClassCast

  /** Either a value, or the exception that aborted the computation. */
  datatype Result<+T> = Success(value: T) | Failure(fault: Fault)

  /** A configuration value: Java's `null`, a `Boolean`, or an object of any
      other class, identified by what its `equals` compares.  Java's
      `Objects.equals` on two values is equality of this datatype. */
  datatype Value = Null | BoolValue(b: bool) | OtherValue(text: string)

  /** A key-to-value configuration, as held by a channel or passed in as a change set. */
  type Configuration = map<string, Value>

  /** `Configuration.get`: an absent key reads as `null`. */
  function Lookup(config: Configuration, key: string): Value
  {
    if key in config then config[key] else Null
  }

  /** The exception unboxing `v` into a primitive `boolean` throws. */
  function FaultOf(v: Value): Fault
    requires !v.BoolValue?
  {
    if v == Null then NullPointer else ClassCast
  }

  /** `(Boolean) v` assigned to a primitive `boolean`: a `Boolean` yields its
      value, `null` fails the unboxing and any other object fails the cast. */
  function Unbox(v: Value): (r: Result<bool>)
    ensures r.Success? <==> v.BoolValue?
    ensures r.Success? ==> r.value == v.b
    ensures r.Failure? ==> (r.fault == NullPointer <==> v == Null)
  {
    match v
    case BoolValue(b) => Success(b)
    case _ => Failure(FaultOf(v))
  }

  /** `String.startsWith`. */
  predicate StartsWith(s: string, prefix: string)
  {
    |prefix| <= |s| && s[..|prefix|] == prefix
  }
}
