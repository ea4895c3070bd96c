/**
 * The "parse" message plugin of the Lolep and Imum plugin sets: it reads a
 * string atom from its input port and writes an atom of the type the text
 * denotes to its output port: a bool for "true"/"false", nothing for
 * "null", an int, a float, or the inner text of a double-quoted string.
 * The numeric conversions themselves (sscanf) are outside this model; only
 * the classification and the fields it writes are.
 */
module ParsePlugin {
  import opened Wrappers

  /** The largest uint32_t plus one. */
  const WORD: nat := 0x1_0000_0000

  /** The type ids the plugin obtains from the host's URI map. */
  datatype TypeIds = TypeIds(boolType: nat, floatType: nat, intType: nat, stringType: nat)

  predicate IsSign(c: char)
  {
    c == '-' || c == '+'
  }

  /** Where the digits start: after one leading sign, if any. */
  function SignEnd(s: string): (i: nat)
    ensures i <= |s| && (i == 1 <==> |s| > 0 && IsSign(s[0]))
  {
    if |s| > 0 && IsSign(s[0]) then 1 else 0
  }

  /** is_int's acceptance: every character after an optional sign is a digit. */
  ghost predicate IntShape(s: string)
  {
    forall i :: SignEnd(s) <= i < |s| ==> IsDigit(s[i])
  }

  /** is_float's acceptance: after an optional sign, only digits and at most one '.'. */
  ghost predicate FloatShape(s: string)
  {
    (forall i :: SignEnd(s) <= i < |s| ==> IsDigit(s[i]) || s[i] == '.')
    && forall i, j :: SignEnd(s) <= i < j < |s| && s[i] == '.' ==> s[j] != '.'
  }

  /** Every string is_int accepts, is_float accepts too. */
  lemma IntShapeIsFloatShape(s: string)
    requires IntShape(s)
    ensures FloatShape(s)
  {
    assert forall i :: SignEnd(s) <= i < |s| ==> s[i] != '.';
  }

  /** The empty string and a bare sign pass as integers. */
  lemma EmptyAndSignAreInts()
    ensures IntShape("") && IntShape("-") && IntShape("+")
  {
  }

  /** is_int: skip a sign, then check each character up to the terminator. */
  method IsInt(str: string) returns (r: bool)
    ensures r <==> IntShape(str)
  {
    var i := if |str| > 0 && IsSign(str[0]) then 1 else 0;
    while i < |str|
      invariant SignEnd(str) <= i <= |str|
      invariant forall k :: SignEnd(str) <= k < i ==> IsDigit(str[k])
    {
      if !IsDigit(str[i]) {
        return false;
      }
      i := i + 1;
    }
    return true;
  }

  /** is_float: digits up to an optional '.', then digits to the terminator. */
  method IsFloat(str: string) returns (r: bool)
    ensures r <==> FloatShape(str)
  {
    var i := if |str| > 0 && IsSign(str[0]) then 1 else 0;
    ghost var dot := |str|;
    while i < |str|
      invariant SignEnd(str) <= i <= |str|
      invariant forall k :: SignEnd(str) <= k < i ==> IsDigit(str[k])
    {
      if str[i] == '.' {
        dot := i;
        i := i + 1;
        break;
      } else if !IsDigit(str[i]) {
        return false;
      }
      i := i + 1;
    }
    while i < |str|
      invariant SignEnd(str) <= i <= |str| && (dot < |str| ==> dot < i)
      invariant forall k :: SignEnd(str) <= k < i ==> IsDigit(str[k]) || k == dot
      invariant dot < |str| ==> str[dot] == '.'
    {
      if !IsDigit(str[i]) {
        assert !FloatShape(str) by {
          if str[i] == '.' {
            assert dot < i && str[dot] == '.';
          }
        }
        return false;
      }
      i := i + 1;
    }
    return true;
  }

  /** What message_run leaves in the output atom and the output's valid flag. */
  datatype Output = Output(atomType: nat, size: nat, body: Body, valid: bool)

  /**
   * The output body: an int32 written by the plugin, or the inner text of a quoted string; `Overrun` is a copy that runs past the
   * end of the input.
   */
  datatype Body = Int32(v: int) | Text(s: string) | Overrun

  /**
   * message_run as written, on input type `inType` and input text `str`
   * (the characters before the terminator), with `prior` the output's
   * fields before the call. A quoted string that does not end with '"'
   * leaves the output as it was but still marks it valid. A lone '"' is
   * both first and last character, so its size len-2 wraps to 0xFFFFFFFF.
   */
  ghost function Outcome(ids: TypeIds, inType: nat, str: string, prior: Output): (r: Output)
  {
    if inType != ids.stringType then Output(0, 0, prior.body, prior.valid)
    else if str == "true" then Output(ids.boolType, 4, Int32(1), true)
    else if str == "false" then Output(ids.boolType, 4, Int32(0), true)
    else if str == "null" then Output(0, 0, prior.body, true)
    else if IntShape(str) then Output(ids.intType, 4, prior.body, true)
    else if FloatShape(str) then Output(ids.floatType, 4, prior.body, true)
    else if |str| > 0 && str[0] == '"' then
      if str[|str| - 1] == '"' then
        Output(ids.stringType, (|str| - 2) % WORD, if |str| >= 2 then Text(str[1..|str| - 1]) else Overrun, true)
      else prior.(valid := true)
    else Output(0, 0, prior.body, prior.valid)
  }

  /** message_run with the quoted-string branch taken only for at least two characters. */
  ghost function OutcomeFixed(ids: TypeIds, inType: nat, str: string, prior: Output): (r: Output)
  {
    if inType == ids.stringType && str == "\"" then prior.(valid := true)
    else Outcome(ids, inType, str, prior)
  }

  /** The finding: a lone '"' is taken as a quoted string of size 0xFFFFFFFF whose copy overruns. */
  lemma LoneQuoteWraps(ids: TypeIds, prior: Output)
    ensures Outcome(ids, ids.stringType, "\"", prior) == Output(ids.stringType, 0xFFFF_FFFF, Overrun, true)
  {
    assert !IntShape("\"") by { assert !IsDigit("\""[0]); }
    assert !FloatShape("\"") by { assert !IsDigit("\""[0]); }
  }

  /**
   * Corrected, no input makes the copy overrun; a lone '"' leaves the
   * output as it was, and a quoted input of two or more characters still
   * gives its inner text with that text's size.
   */
  lemma FixedQuotedText(ids: TypeIds, inType: nat, str: string, prior: Output)
    ensures var r := OutcomeFixed(ids, inType, str, prior);
      r.body == Overrun ==> prior.body == Overrun
    ensures inType == ids.stringType && str == "\"" ==> OutcomeFixed(ids, inType, str, prior) == prior.(valid := true)
    ensures inType == ids.stringType && 2 <= |str| < WORD && str[0] == '"' && str[|str| - 1] == '"' ==>
      var r := OutcomeFixed(ids, inType, str, prior);
      r.atomType == ids.stringType && r.size == |str| - 2 && r.body == Text(str[1..|str| - 1]) && r.valid
  {
    if inType == ids.stringType && 2 <= |str| && str[0] == '"' {
      assert !IntShape(str) by { assert !IsDigit(str[0]); }
      assert !FloatShape(str) by { assert !IsDigit(str[0]); }
    }
  }

  /** Anything but a string atom on the input empties the output and does not mark it valid. */
  lemma NonStringInput(ids: TypeIds, inType: nat, str: string, prior: Output)
    requires inType != ids.stringType
    ensures var r := Outcome(ids, inType, str, prior);
      r.atomType == 0 && r.size == 0 && r.valid == prior.valid && r.body == prior.body
  {
  }

  /**
   * Keywords come before numbers, integers before floats and floats before
   * quoted strings: "true"/"false" give a 4-byte bool 1/0, "null" an empty
   * atom, an integer-shaped text an int even though it is float-shaped too.
   */
  lemma ClassificationOrder(ids: TypeIds, str: string, prior: Output)
    ensures var r := Outcome(ids, ids.stringType, str, prior);
      (str == "true" ==> r == Output(ids.boolType, 4, Int32(1), true))
      && (str == "false" ==> r == Output(ids.boolType, 4, Int32(0), true))
      && (str == "null" ==> r.atomType == 0 && r.size == 0 && r.valid)
      && (str !in {"true", "false", "null"} && IntShape(str) ==> r.atomType == ids.intType && r.size == 4 && FloatShape(str))
      && (str !in {"true", "false", "null"} && !IntShape(str) && FloatShape(str) ==> r.atomType == ids.floatType && r.size == 4)
  {
    if str !in {"true", "false", "null"} && IntShape(str) {
      IntShapeIsFloatShape(str);
    }
  }

  /** Input that is no keyword, number or quoted string gives an empty, unmarked output. */
  lemma UnrecognisedInput(ids: TypeIds, str: string, prior: Output)
    requires str !in {"true", "false", "null"} && !IntShape(str) && !FloatShape(str)
    requires |str| == 0 || str[0] != '"'
    ensures Outcome(ids, ids.stringType, str, prior) == Output(0, 0, prior.body, prior.valid)
  {
  }

  /** The plugin's output port: an atom header, its body, and the port's valid bit. */
  class OutputPort {
    var atomType: nat
    var size: nat
    var body: Body
    var valid: bool

    constructor (atomType: nat, size: nat, body: Body, valid: bool)
      ensures this.atomType == atomType && this.size == size && this.body == body && this.valid == valid
    {
      this.atomType := atomType;
      this.size := size;
      this.body := body;
      this.valid := valid;
    }

    function Fields(): Output
      reads this
    {
      Output(atomType, size, body, valid)
    }

    /** message_run, writing the output in place. */
    method MessageRun(ids: TypeIds, inType: nat, str: string)
      modifies this
      ensures Fields() == Outcome(ids, inType, str, old(Fields()))
    {
      if inType != ids.stringType {
        atomType, size := 0, 0;
        return;
      }
      var isInt := IsInt(str);
      var isFloat := IsFloat(str);
      if str == "true" {
        atomType, size, body := ids.boolType, 4, Int32(1);
      } else if str == "false" {
        atomType, size, body := ids.boolType, 4, Int32(0);
      } else if str == "null" {
        atomType, size := 0, 0;
      } else if isInt {
        atomType, size := ids.intType, 4;
      } else if isFloat {
        atomType, size := ids.floatType, 4;
      } else if |str| > 0 && str[0] == '"' {
        var len := |str|;
        if str[len - 1] == '"' {
          atomType := ids.stringType;
          size := (len - 2) % WORD;
          body := if len >= 2 then Text(str[1..len - 1]) else Overrun;
        }
      } else {
        atomType, size := 0, 0;
        return;
      }
      valid := true;
    }
  }
}
