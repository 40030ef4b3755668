/** The classes a point can be assigned to. */
module PointClasses {
  datatype PointClass = Class0 | Class1 | Class2 | Class3
}
