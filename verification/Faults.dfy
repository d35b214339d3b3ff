/** How a call to another system goes. */
module Faults {
  // It works, it fails without effect, or it takes effect and its answer is lost.
  datatype Fault = Works | Fails | LosesAnswer
}
