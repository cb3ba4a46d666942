/** include/strategy.h: the primitive actions. */
module Strategies {
  datatype Strategy = Pass | Split | Disorder | Fake | Fragment | TlsRec | TlsRecSplit
}
