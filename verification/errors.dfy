/** Every diagnostic cause the assembler reports (src/assembler/error.ts:8-27).
    The older parser's own enumeration (src/assembler/Parser.ts:12-26) is
    the first thirteen of these under the same names, and pass 1 uses
    `LabelAlreadyDefined` (src/assembler/translate.ts:6-8), so all three
    share this one datatype. */
module Errors {

  datatype Cause =
    // syntax errors, found by the line parsers
    | InvalidLabel
    | EmptyContent
    | TooManyMRIOperands
    | TooManyNonMRIOperands
    | TooManyDirectiveOperands
    | UnexpectedOperand
    | UnrecognizedOperation
    | InvalidAddress
    | InvalidHexadecimal
    | InvalidDecimal
    | NoAddress
    | NoNumeral
    | InvalidIndirectionSymbol
    // linking errors, found after parsing
    | LabelAlreadyDefined
    | OriginOutOfOrder
    | AddressLimitExceeded
    | UnrecognizedAddress
    | HaltExpected

}
