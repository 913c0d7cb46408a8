/** The log verbosity and its case-insensitive parser (include/LogLevel.hpp). */
module Logging {

  datatype LogLevel = NONE | ERROR | INFO | DEBUG

  function LevelValue(l: LogLevel): (v: nat)
    ensures v <= 3
  {
    match l
    case NONE => 0
    case ERROR => 1
    case INFO => 2
    case DEBUG => 3
  }

  /** `::toupper` in the "C" locale: only 'a'..'z' change. */
  function UpperChar(c: char): (u: char)
    ensures 'a' <= c <= 'z' ==> 'A' <= u <= 'Z' && u as int == c as int - 32
    ensures !('a' <= c <= 'z') ==> u == c
    ensures !('a' <= u <= 'z')
  {
    if 'a' <= c <= 'z' then (c as int - 32) as char else c
  }

  /** The copy that `std::transform(..., ::toupper)` leaves. */
  function ToUpper(s: string): (u: string)
    ensures |u| == |s|
    ensures forall i :: 0 <= i < |s| ==> u[i] == UpperChar(s[i])
  {
    seq(|s|, i requires 0 <= i < |s| => UpperChar(s[i]))
  }

  /** `parseLogLevel`: DEBUG, INFO, ERROR recognised after upper-casing,
      anything else NONE. */
  function ParseLogLevel(s: string): (l: LogLevel)
    ensures l == DEBUG <==> ToUpper(s) == "DEBUG"
    ensures l == INFO <==> ToUpper(s) == "INFO"
    ensures l == ERROR <==> ToUpper(s) == "ERROR"
  {
    var u := ToUpper(s);
    if u == "DEBUG" then DEBUG
    else if u == "INFO" then INFO
    else if u == "ERROR" then ERROR
    else NONE
  }

  /** Upper-casing twice changes nothing more. */
  lemma ToUpperIdempotent(s: string)
    ensures ToUpper(ToUpper(s)) == ToUpper(s)
  {
  }

  /** Parsing is case-insensitive: a text parses like its upper-case copy,
      and two texts that agree up to case parse alike. */
  lemma ParseLogLevelIgnoresCase(s: string, t: string)
    ensures ParseLogLevel(ToUpper(s)) == ParseLogLevel(s)
    ensures ToUpper(s) == ToUpper(t) ==> ParseLogLevel(s) == ParseLogLevel(t)
  {
    ToUpperIdempotent(s);
  }

  /** An example of `ParseLogLevelIgnoresCase`: lower- and mixed-case spellings are recognised. */
  lemma ParseLogLevelLowerCase()
    ensures ParseLogLevel("debug") == DEBUG
    ensures ParseLogLevel("Info") == INFO
    ensures ParseLogLevel("error") == ERROR
  {
    assert ToUpper("debug") == "DEBUG";
    assert ToUpper("Info") == "INFO";
    assert ToUpper("error") == "ERROR";
  }

  /** Verbosity order NONE < ERROR < INFO < DEBUG. */
  lemma LevelOrder()
    ensures LevelValue(NONE) == 0 && LevelValue(ERROR) == 1 && LevelValue(INFO) == 2 && LevelValue(DEBUG) == 3
  {
  }
}
