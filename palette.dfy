/** The SwiftUI colours the two log views use, as plain values. */
module Palette {
  datatype Color = Red | Orange | Yellow | Blue | Gray | Green | Purple
}
