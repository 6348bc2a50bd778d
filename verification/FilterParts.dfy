/** `filter_parts`: a filter expression is a field, an operator and a value. */
module FilterParts {
  import opened Wrappers

  /** Unicode `White_Space`. */
  predicate IsSpace(c: char) {
    || '\U{0009}' <= c <= '\U{000D}' || c == ' ' || c == '\U{0085}' || c == '\U{00A0}' || c == '\U{1680}'
    || '\U{2000}' <= c <= '\U{200A}' || c == '\U{2028}' || c == '\U{2029}' || c == '\U{202F}' || c == '\U{205F}'
    || c == '\U{3000}'
  }

  /** These are its code points. */
  lemma SpaceMeans(c: char)
    ensures IsSpace(c) <==>
              c as int in {9, 10, 11, 12, 13, 32, 133, 160, 5760, 8192, 8193, 8194, 8195, 8196, 8197, 8198, 8199, 8200,
                           8201, 8202, 8232, 8233, 8239, 8287, 12288}
  {}

  predicate IsOperatorChar(c: char) { c == '=' || c == '!' || c == '<' || c == '>' }

  /** Tried in this order. */
  const OPERATORS: seq<string> := ["==", ">=", "<=", "!=", ">", "<"]

  function TrimStart(s: string): string { if s != [] && IsSpace(s[0]) then TrimStart(s[1..]) else s }

  function TrimEnd(s: string): string { if s != [] && IsSpace(s[|s| - 1]) then TrimEnd(s[..|s| - 1]) else s }

  function Trim(s: string): string { TrimEnd(TrimStart(s)) }

  predicate StartsWith(s: string, part: string) { |part| <= |s| && s[..|part|] == part }

  /** Where `part` first occurs. */
  function Find(s: string, part: string): Option<nat> {
    if StartsWith(s, part) then Some(0)
    else if s == [] then None
    else match Find(s[1..], part)
         case Some(k) => Some(k + 1)
         case None => None
  }

  predicate Clean(field: string) {
    field != "" && forall k :: 0 <= k < |field| ==> !IsSpace(field[k]) && !IsOperatorChar(field[k])
  }

  datatype Parts = Parts(field: string, operator: string, value: string)

  /** The closure tried for one operator. */
  function WithOperator(e: string, op: string): Option<Parts> {
    match Find(e, op)
    case None => None
    case Some(k) =>
      if k + |op| > |e| then None
      else
        var left, right := e[..k], e[k + |op|..];
        if left == "" || !IsSpace(left[|left| - 1]) || right == "" || !IsSpace(right[0]) then None
        else if !Clean(Trim(left)) || Trim(right) == "" then None
        else Some(Parts(Trim(left), op, Trim(right)))
  }

  function FirstOf(e: string, operators: seq<string>): Option<Parts> {
    if operators == [] then None
    else match WithOperator(e, operators[0])
         case Some(p) => Some(p)
         case None => FirstOf(e, operators[1..])
  }

  function FilterParts(e: string): Option<Parts> { FirstOf(e, OPERATORS) }

  // ---------------------------------------------------------------- trimming and finding

  lemma {:induction false} FindMeans(s: string, part: string)
    ensures Find(s, part).Some? ==> Find(s, part).value + |part| <= |s| && StartsWith(s[Find(s, part).value..], part)
    ensures forall k :: 0 <= k <= |s| && StartsWith(s[k..], part) ==> Find(s, part).Some? && Find(s, part).value <= k
  {
    if !StartsWith(s, part) && s != [] {
      FindMeans(s[1..], part);
      forall k | 0 <= k <= |s| && StartsWith(s[k..], part) ensures Find(s, part).Some? && Find(s, part).value <= k {
        assert s[0..] == s;
        assert k > 0 && s[k..] == s[1..][k - 1..];
      }
      if Find(s[1..], part).Some? { assert s[1..][Find(s[1..], part).value..] == s[Find(s, part).value..]; }
    } else {
      assert s[0..] == s;
    }
  }

  lemma {:induction false} TrimStartKeeps(s: string, c: char)
    requires c in s && !IsSpace(c)
    ensures c in TrimStart(s)
  {
    hide IsSpace;
    if IsSpace(s[0]) {
      assert s == [s[0]] + s[1..];
      TrimStartKeeps(s[1..], c);
    }
  }

  lemma {:induction false} TrimEndKeeps(s: string, c: char)
    requires c in s && !IsSpace(c)
    ensures c in TrimEnd(s)
  {
    hide IsSpace;
    if IsSpace(s[|s| - 1]) {
      assert s == s[..|s| - 1] + [s[|s| - 1]];
      TrimEndKeeps(s[..|s| - 1], c);
    }
  }

  lemma {:induction false} OperatorCharIsNoSpace(c: char)
    requires IsOperatorChar(c)
    ensures !IsSpace(c)
  {}

  /** Text with an operator character is no field, however it is trimmed. */
  lemma HoldsOperator(s: string, c: char)
    requires c in s && IsOperatorChar(c)
    ensures !Clean(Trim(s))
  {
    OperatorCharIsNoSpace(c);
    TrimStartKeeps(s, c);
    TrimEndKeeps(TrimStart(s), c);
    hide TrimStart, TrimEnd, IsOperatorChar, IsSpace;
  }

  /** Text that trims to a field holds no operator character. */
  lemma CleanAround(s: string)
    requires Clean(Trim(s))
    ensures forall k :: 0 <= k < |s| ==> !IsOperatorChar(s[k])
  {
    forall k | 0 <= k < |s| ensures !IsOperatorChar(s[k]) {
      if IsOperatorChar(s[k]) { HoldsOperator(s, s[k]); }
    }
  }

  /** One of the two angle brackets, or one of four characters before an equals sign. */
  predicate IsOperator(op: string) {
    op == "<" || op == ">" || (|op| == 2 && op[1] == '=' && op[0] in "=!<>")
  }

  lemma OperatorChars(op: string, c: char)
    requires IsOperator(op) && c in op
    ensures IsOperatorChar(c)
  {
    assert "=!<>"[0] == '=' && "=!<>"[1] == '!' && "=!<>"[2] == '<' && "=!<>"[3] == '>';
    var k :| 0 <= k < |op| && op[k] == c;
  }

  /** These are the operators tried, and the characters no field may hold are theirs. */
  lemma OperatorsMean(op: string, c: char)
    ensures op in OPERATORS <==> IsOperator(op)
    ensures IsOperatorChar(c) <==> exists other :: IsOperator(other) && c in other
  {
    var o := OPERATORS;
    assert o[0] == "==" && o[1] == ">=" && o[2] == "<=" && o[3] == "!=" && o[4] == ">" && o[5] == "<";
    if IsOperator(op) && |op| == 2 {
      assert "=!<>"[0] == '=' && "=!<>"[1] == '!' && "=!<>"[2] == '<' && "=!<>"[3] == '>';
      assert op[0] == '=' ==> op == o[0];
      assert op[0] == '!' ==> op == o[3];
      assert op[0] == '<' ==> op == o[2];
      assert op[0] == '>' ==> op == o[1];
    }
    forall other | IsOperator(other) && c in other ensures IsOperatorChar(c) { OperatorChars(other, c); }
    if IsOperatorChar(c) {
      var other := [c] + "=";
      assert other[0] == c && other[1] == '=';
      assert c in "=!<>" by {
        assert "=!<>"[0] == '=' && "=!<>"[1] == '!' && "=!<>"[2] == '<' && "=!<>"[3] == '>';
      }
      assert IsOperator(other) && c in other;
    }
  }

  lemma OperatorShape(op: string)
    requires IsOperator(op)
    ensures 1 <= |op| <= 2 && IsOperatorChar(op[0]) && (|op| == 2 ==> op[1] == '=')
    ensures |op| == 1 ==> op[0] != '='
  {}

  /** Trimming takes the spaces off both ends and nothing else. */
  lemma TrimMeans(s: string) returns (before: string, after: string)
    ensures s == before + Trim(s) + after
    ensures forall c :: c in before + after ==> IsSpace(c)
    ensures Trim(s) != "" ==> !IsSpace(Trim(s)[0]) && !IsSpace(Trim(s)[|Trim(s)| - 1])
  {
    before := TrimStartMeans(s);
    after := TrimEndMeans(TrimStart(s));
    hide IsSpace, TrimStart, TrimEnd;
    if Trim(s) != "" { assert Trim(s)[0] == TrimStart(s)[0]; }
  }

  lemma {:induction false} TrimStartMeans(s: string) returns (before: string)
    ensures s == before + TrimStart(s) && forall c :: c in before ==> IsSpace(c)
    ensures TrimStart(s) != "" ==> !IsSpace(TrimStart(s)[0])
  {
    hide IsSpace;
    before := "";
    if s != [] && IsSpace(s[0]) {
      var rest := TrimStartMeans(s[1..]);
      before := [s[0]] + rest;
      assert s == [s[0]] + s[1..];
    }
  }

  lemma {:induction false} TrimEndMeans(s: string) returns (after: string)
    ensures s == TrimEnd(s) + after && forall c :: c in after ==> IsSpace(c)
    ensures TrimEnd(s) != "" ==> !IsSpace(TrimEnd(s)[|TrimEnd(s)| - 1])
  {
    hide IsSpace;
    after := "";
    if s != [] && IsSpace(s[|s| - 1]) {
      var rest := TrimEndMeans(s[..|s| - 1]);
      after := rest + [s[|s| - 1]];
      assert s == s[..|s| - 1] + [s[|s| - 1]];
    }
  }

  // ---------------------------------------------------------------- both directions

  /** `left op right` is a filter expression cut at its operator. */
  predicate Expression(left: string, op: string, right: string) {
    && IsOperator(op)
    && left != "" && IsSpace(left[|left| - 1]) && Clean(Trim(left))
    && right != "" && IsSpace(right[0]) && Trim(right) != ""
  }

  /** No operator begins before the one the expression was made with; one that begins there
      is that one or its first character. */
  lemma WhereOperatorsBegin(left: string, op: string, right: string, other: string, k: nat)
    requires Expression(left, op, right) && IsOperator(other)
    requires k <= |left + op + right| && StartsWith((left + op + right)[k..], other)
    ensures k >= |left|
    ensures k == |left| ==> other == op || (|other| == 1 && |op| == 2)
    ensures k > |left| ==> k >= |left| + |op|
  {
    var e := left + op + right;
    OperatorShape(op);
    OperatorShape(other);
    CleanAround(left);
    assert e[k] == other[0];
    if |other| == 2 { assert e[k + 1] == other[1]; }
    OperatorCharIsNoSpace('=');
    if k >= |left| {
      assert e[|left|] == op[0];
      if |op| == 2 { assert e[|left| + 1] == op[1]; }
      assert e[|left| + |op|] == right[0];
    }
    hide IsSpace;
  }

  lemma OtherOperatorFails(left: string, op: string, right: string, other: string)
    requires Expression(left, op, right) && IsOperator(other) && other != op && !(|other| == 1 && |op| == 2)
    ensures WithOperator(left + op + right, other).None?
  {
    var e := left + op + right;
    FindMeans(e, other);
    var found := Find(e, other);
    if found.Some? {
      var k := found.value;
      WhereOperatorsBegin(left, op, right, other, k);
      OperatorShape(op);
      assert e[..k][|left|] == op[0];
      HoldsOperator(e[..k], op[0]);
    }
    hide Clean, IsSpace, Trim, Find;
  }

  lemma OwnOperatorSucceeds(left: string, op: string, right: string)
    requires Expression(left, op, right)
    ensures WithOperator(left + op + right, op) == Some(Parts(Trim(left), op, Trim(right)))
  {
    var e := left + op + right;
    FindMeans(e, op);
    assert e[|left|..] == op + right;
    assert StartsWith(e[|left|..], op);
    var k := Find(e, op).value;
    WhereOperatorsBegin(left, op, right, op, k);
    hide Find, Clean, Trim, IsSpace, StartsWith;
    assert k == |left|;
    assert e[..k] == left && e[k + |op|..] == right;
  }

  /** Every expression is taken apart at the operator it was made with, whatever operators
      its value contains. */
  lemma ExpressionIsRead(left: string, op: string, right: string)
    requires Expression(left, op, right)
    ensures FilterParts(left + op + right) == Some(Parts(Trim(left), op, Trim(right)))
  {
    var o := OPERATORS;
    assert o[0] == "==" && o[1] == ">=" && o[2] == "<=" && o[3] == "!=" && o[4] == ">" && o[5] == "<";
    OperatorsMean(op, '=');
    OwnOperatorSucceeds(left, op, right);
    var i :| 0 <= i < |o| && o[i] == op;
    forall j | 0 <= j < i ensures WithOperator(left + op + right, o[j]).None? {
      OperatorsMean(o[j], '=');
      OtherOperatorFails(left, op, right, o[j]);
    }
    Reached(left + op + right, o, i);
  }

  lemma {:induction false} Reached(e: string, operators: seq<string>, i: nat)
    requires i < |operators| && WithOperator(e, operators[i]).Some?
    requires forall j :: 0 <= j < i ==> WithOperator(e, operators[j]).None?
    ensures FirstOf(e, operators) == WithOperator(e, operators[i])
  {
    hide WithOperator;
    if i > 0 { Reached(e, operators[1..], i - 1); }
  }

  lemma {:induction false} SomeOperator(e: string, operators: seq<string>) returns (op: string)
    requires FirstOf(e, operators).Some?
    ensures op in operators && WithOperator(e, op) == FirstOf(e, operators)
  {
    hide WithOperator;
    if WithOperator(e, operators[0]).Some? { op := operators[0]; } else { op := SomeOperator(e, operators[1..]); }
  }

  /** Whatever is accepted is such an expression. */
  lemma ReadIsExpression(e: string) returns (left: string, right: string)
    requires FilterParts(e).Some?
    ensures var p := FilterParts(e).value;
            && e == left + p.operator + right && Expression(left, p.operator, right)
            && p.field == Trim(left) && p.value == Trim(right)
  {
    hide Find, Clean, Trim, IsSpace;
    var op := SomeOperator(e, OPERATORS);
    OperatorsMean(op, '=');
    left, right := CutAtOperator(e, op);
  }

  lemma CutAtOperator(e: string, op: string) returns (left: string, right: string)
    requires IsOperator(op) && WithOperator(e, op).Some?
    ensures e == left + op + right && Expression(left, op, right)
    ensures WithOperator(e, op) == Some(Parts(Trim(left), op, Trim(right)))
  {
    FindMeans(e, op);
    hide Find, Clean, Trim, IsSpace;
    var k := Find(e, op).value;
    left, right := e[..k], e[k + |op|..];
    assert e[k..][..|op|] == op;
    assert e == left + op + right;
  }

  /** The printed form of three parts is read back as those parts. */
  lemma PrintedIsRead(field: string, op: string, value: string)
    requires Clean(field) && IsOperator(op) && value != "" && Trim(value) == value
    ensures FilterParts(field + " " + op + " " + value) == Some(Parts(field, op, value))
  {
    var left, right := field + " ", " " + value;
    assert IsSpace(' ');
    assert left[..|left| - 1] == field && right[1..] == value;
    assert TrimStart(left) == left && TrimEnd(left) == TrimEnd(field) == field;
    assert TrimStart(right) == TrimStart(value);
    assert field + " " + op + " " + value == left + op + right;
    ExpressionIsRead(left, op, right);
  }
}
