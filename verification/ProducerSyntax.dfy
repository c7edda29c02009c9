/** The parts of a producer's syntax tree that the analysis looks at. */
module ProducerSyntax {
  import opened Wrappers

  datatype Expr =
    | Empty                                                            // absent, or a node no source passes through
    | Text(text: string)
    | Name(id: string)
    | Attribute(value: Expr, attr: string)
    | Call(callee: Expr, arguments: seq<Expr>, keywords: seq<Keyword>)
    | Walrus(target: Expr, value: Expr)
    | Elements(elements: seq<Expr>)                                    // a tuple or a list
    | Compound(children: seq<Expr>)                                    // operators, sets, dictionaries, subscripts, formatted text

  datatype Keyword = Keyword(name: Option<string>, value: Expr)

  datatype Stmt =
    | Assign(targets: seq<Expr>, value: Expr)
    | AugAssign(target: Expr, value: Expr)
    | Evaluate(value: Expr)                                            // an expression, raise or assert statement
    | Return(value: Expr)
    | For(target: Expr, iter: Expr, body: seq<Stmt>, orelse: seq<Stmt>)
    | Branch(test: Expr, body: seq<Stmt>, orelse: seq<Stmt>)           // if and while
    | With(items: seq<Item>, body: seq<Stmt>)
    | Try(blocks: seq<Suite>)                                           // body, else, finally, then the handlers
    | Other

  datatype Suite = Suite(stmts: seq<Stmt>)

  datatype Item = Item(context: Expr, target: Option<Expr>)

  datatype Parameter = Parameter(name: string, default: Option<Expr>)

  /** One call of `add_argument` found inside a function. */
  datatype Argument = Argument(names: seq<string>, dest: Option<string>, default: Option<Expr>)

  datatype Function = Function(parameters: seq<Parameter>, body: seq<Stmt>, declared: seq<Argument>)

  datatype Assignment = Assignment(targets: seq<Expr>, value: Expr)

  datatype Program = Program(functions: map<string, Function>, assignments: seq<Assignment>)

  predicate WalrusFree(e: Expr) {
    match e
    case Attribute(value, _) => WalrusFree(value)
    case Call(callee, arguments, keywords) =>
      && WalrusFree(callee)
      && (forall a :: a in arguments ==> WalrusFree(a))
      && (forall k :: k in keywords ==> WalrusFree(k.value))
    case Walrus(_, _) => false
    case Elements(elements) => forall c :: c in elements ==> WalrusFree(c)
    case Compound(children) => forall c :: c in children ==> WalrusFree(c)
    case _ => true
  }

  predicate WalrusFreeDefaults(p: Program) {
    forall name :: name in p.functions.Keys ==>
      forall a :: a in p.functions[name].declared && a.default.Some? ==> WalrusFree(a.default.value)
  }

  predicate StartsWith(s: string, prefix: string) {
    prefix <= s
  }

  predicate IsUpper(s: string) {
    && (exists i :: 0 <= i < |s| && 'A' <= s[i] <= 'Z')
    && (forall i :: 0 <= i < |s| ==> !('a' <= s[i] <= 'z'))
  }

  function Strip(s: string): string {
    if s != [] && s[0] == '-' then Strip(s[1..]) else s
  }

  function Underscored(s: string): string {
    seq(|s|, i requires 0 <= i < |s| => if s[i] == '-' then '_' else s[i])
  }

  function FirstOption(names: seq<string>): Option<string> {
    if names == [] then None else if StartsWith(names[0], "--") then Some(names[0]) else FirstOption(names[1..])
  }

  /** The namespace attribute the argument is stored under; empty for none. */
  function Destination(a: Argument): string {
    if a.dest.Some? then a.dest.value
    else
      var option := FirstOption(a.names);
      Underscored(Strip(if option.Some? then option.value else if a.names != [] then a.names[0] else ""))
  }

  function FindKeyword(keywords: seq<Keyword>, name: string): Option<Expr> {
    if keywords == [] then None
    else if keywords[0].name == Some(name) then Some(keywords[0].value)
    else FindKeyword(keywords[1..], name)
  }

  predicate HasFlag(text: string) {
    exists i :: 0 <= i < |text| && text[i] in "wax+"
  }

  predicate WriteMode(call: Expr, isMethod: bool)
    requires call.Call?
  {
    var index := if isMethod then 0 else 1;
    var keyword := FindKeyword(call.keywords, "mode");
    var mode := if keyword.Some? then keyword.value else if |call.arguments| > index then call.arguments[index] else Empty;
    mode.Text? && HasFlag(mode.text)
  }

  datatype Written = Receiver | PositionalArgument(index: nat) | Nowhere

  /** Which operand of a call that was not followed names an output. */
  function WrittenBy(call: Expr): (w: Written)
    requires call.Call?
    ensures w.PositionalArgument? ==> w.index < |call.arguments|
    ensures w.Receiver? ==> call.callee.Attribute?
  {
    var n := |call.arguments|;
    if call.callee.Attribute? then
      var name, on := call.callee.attr, call.callee.value;
      if name in ["write_text", "write_bytes", "touch"] then Receiver
      else if name in ["write", "writelines", "writerow", "writerows"] then Receiver
      else if name == "open" && WriteMode(call, true) then Receiver
      else if name in ["replace", "rename"] && on == Name("os") && n >= 2 then PositionalArgument(1)
      else if name == "replace" && n > 0 then PositionalArgument(0)
      else if name in ["copy", "copy2", "copyfile", "move"] && n >= 2 then PositionalArgument(1)
      else if name in ["save", "savez", "savez_compressed", "savetxt"] && n > 0 then PositionalArgument(0)
      else if name == "dump" && n >= 2 then PositionalArgument(1)
      else if StartsWith(name, "write_") && on.Name? && IsUpper(on.id) && n > 0 then PositionalArgument(0)
      else Nowhere
    else if call.callee == Name("open") && WriteMode(call, false) && n > 0 then PositionalArgument(0)
    else Nowhere
  }
}
