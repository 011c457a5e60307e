/** The explicit input that replaces Java reflection (java.beans.Introspector,
    PropertyDescriptor and Method.invoke): what introspecting one object yields. */
module Beans {

  datatype Option<T> = None | Some(value: T)

  /** An object that a read method returned: the name of its runtime class
      (what `getClass().getName()` yields) and an identity standing for the
      object itself. */
  datatype Value = Value(className: string, id: nat)

  /** The exceptions of `Method.invoke` that the comparator catches. */
  datatype InvokeFailure = IllegalArgument | IllegalAccess | InvocationTarget

  /** What calling a property's read method on the inspected object does. */
  datatype ReadOutcome =
    | NoReadMethod                    // write-only property: `getReadMethod()` is null
    | Threw(failure: InvokeFailure)   // the invocation failed with a caught exception
    | ReturnedNull
    | Returned(value: Value)

  /** One property: its name, its declared type (None when `getPropertyType()`
      is null, as for an indexed-only property) and the outcome of reading it. */
  datatype PropertyDescriptor = PropertyDescriptor(name: string, propertyType: Option<string>, read: ReadOutcome)

  /** The result of `Introspector.getBeanInfo`: either an IntrospectionException
      or the property descriptors of the object's class. */
  datatype BeanInfo = IntrospectionFailed | BeanInfo(descriptors: seq<PropertyDescriptor>)

  /** The `Object` argument of every operation, which may be null. */
  datatype Ref = Null | Instance(info: BeanInfo)

  /** A normal return, or the one exception that escapes the comparator. */
  datatype Outcome<T> = Normal(value: T) | NullPointerException
}
