/** What an analyzer rule reports: a rule id, a source location and message arguments. */
module Diagnostics {
  /** A source span, kept abstract: the file it lies in, its start and its length. */
  datatype Location = Location(file: string, start: nat, length: nat)

  /**
   * One reported problem. Severity, title and message format are fixed per rule
   * by its descriptor, so only the rule id stands for the descriptor here.
   */
  datatype Diagnostic = Diagnostic(ruleId: string, location: Location, messageArguments: seq<string>)
}
