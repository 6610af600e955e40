/** The sign-up form: five text fields, a validation that records one
    message per invalid field, and typing in a field clearing that field's
    message. */
module SignUp {
  import opened Text

  datatype Field = Nome | Email | Cpf | Senha | ConfirmarSenha

  datatype FormData = FormData(nome: string, email: string, cpf: string, senha: string, confirmarSenha: string)

  function ValueOf(form: FormData, f: Field): string {
    match f
    case Nome => form.nome
    case Email => form.email
    case Cpf => form.cpf
    case Senha => form.senha
    case ConfirmarSenha => form.confirmarSenha
  }

  /** `{ ...formData, [name]: value }`. */
  function WithValue(form: FormData, f: Field, v: string): (r: FormData)
    ensures ValueOf(r, f) == v
    ensures forall g :: g != f ==> ValueOf(r, g) == ValueOf(form, g)
  {
    match f
    case Nome => form.(nome := v)
    case Email => form.(email := v)
    case Cpf => form.(cpf := v)
    case Senha => form.(senha := v)
    case ConfirmarSenha => form.(confirmarSenha := v)
  }

  predicate NoSpace(s: string) {
    forall i :: 0 <= i < |s| ==> !IsSpace(s[i])
  }

  /** `/^\S+@\S+\.\S+$/`: a non-empty run of non-space characters, '@',
      another, '.', and a third, covering the whole string. */
  predicate EmailPattern(s: string) {
    exists i, j :: 1 <= i && i + 2 <= j && j + 2 <= |s| && s[i] == '@' && s[j] == '.'
      && NoSpace(s[..i]) && NoSpace(s[i + 1..j]) && NoSpace(s[j + 1..])
  }

  /** The same pattern read positionally: no white space anywhere, an '@'
      after the first character and a '.' at least two characters after it
      and before the last one. */
  predicate EmailShape(s: string) {
    NoSpace(s) && exists i, j :: 1 <= i && i + 2 <= j && j + 2 <= |s| && s[i] == '@' && s[j] == '.'
  }

  lemma EmailShapeIffPattern(s: string)
    ensures EmailShape(s) <==> EmailPattern(s)
  {
    if EmailShape(s) {
      var i, j :| 1 <= i && i + 2 <= j && j + 2 <= |s| && s[i] == '@' && s[j] == '.';
      assert NoSpace(s[..i]) && NoSpace(s[i + 1..j]) && NoSpace(s[j + 1..]);
    }
    if EmailPattern(s) {
      var i, j :| 1 <= i && i + 2 <= j && j + 2 <= |s| && s[i] == '@' && s[j] == '.'
        && NoSpace(s[..i]) && NoSpace(s[i + 1..j]) && NoSpace(s[j + 1..]);
      PartsNoSpace(s, i, j);
    }
  }

  /** Three runs without white space around '@' and '.' make a string
      without white space. */
  lemma PartsNoSpace(s: string, i: nat, j: nat)
    requires i < j < |s| && s[i] == '@' && s[j] == '.'
    requires NoSpace(s[..i]) && NoSpace(s[i + 1..j]) && NoSpace(s[j + 1..])
    ensures NoSpace(s)
  {
    forall k | 0 <= k < |s|
      ensures !IsSpace(s[k])
    {
      if k < i {
        assert s[k] == s[..i][k];
      } else if i < k < j {
        assert s[k] == s[i + 1..j][k - i - 1];
      } else if j < k {
        assert s[k] == s[j + 1..][k - j - 1];
      }
    }
  }

  /** `/^\S+@\S+\.\S+$/.test(s)`, checked positionally. */
  function EmailOk(s: string): (b: bool)
    ensures b <==> EmailPattern(s)
  {
    EmailShapeIffPattern(s);
    EmailShape(s)
  }

  /** `/^\d{11}$/.test(s)`: eleven digits, so `length` 11 and a number
      below 10^11. */
  function CpfOk(s: string): (b: bool)
    ensures b ==> Utf16Length(s) == 11
    ensures b ==> AllDigits(s) && ParseNat(s) < 100_000_000_000
  {
    if |s| == 11 && AllDigits(s) then
      Utf16LengthBmp(s);
      ParseNatBound(s);
      true
    else false
  }

  /** A string of n digits reads as a number below 10^n. */
  lemma {:induction false} ParseNatBound(s: string)
    requires AllDigits(s)
    ensures ParseNat(s) < Pow10(|s|)
    decreases |s|
  {
    if s != [] {
      var init := s[..|s| - 1];
      assert forall i :: 0 <= i < |init| ==> init[i] == s[i];
      ParseNatBound(init);
    }
  }

  function Pow10(n: nat): (p: nat)
    ensures p >= 1
  {
    if n == 0 then 1 else 10 * Pow10(n - 1)
  }

  const NomeObrigatorio := "Nome é obrigatório."
  const EmailInvalido := "Email inválido."
  const CpfInvalido := "CPF deve conter 11 dígitos numéricos."
  const SenhaCurta := "Senha deve ter pelo menos 6 caracteres."
  const SenhasDiferentes := "As senhas não coincidem."

  /** Whether validation finds field `f` invalid: a blank name, an email
      off the pattern, a CPF that is not eleven digits, a password shorter
      than six UTF-16 code units, or a confirmation that differs. */
  function Invalid(form: FormData, f: Field): (b: bool)
    ensures f == Nome ==> (b <==> AllSpace(form.nome))
    ensures f == Email ==> (b <==> !EmailPattern(form.email))
    ensures f == Senha && |form.senha| <= 2 ==> b
  {
    TrimEmptyIffBlank(form.nome);
    match f
    case Nome => Trim(form.nome) == ""
    case Email => !EmailOk(form.email)
    case Cpf => !CpfOk(form.cpf)
    case Senha => Utf16Length(form.senha) < 6
    case ConfirmarSenha => form.senha != form.confirmarSenha
  }

  function Message(f: Field): (m: string)
    ensures m != ""
  {
    match f
    case Nome => NomeObrigatorio
    case Email => EmailInvalido
    case Cpf => CpfInvalido
    case Senha => SenhaCurta
    case ConfirmarSenha => SenhasDiferentes
  }

  /** A password of six characters or more from the Basic Multilingual
      Plane is long enough, and one of two or fewer characters never is. */
  lemma SenhaLength(form: FormData)
    ensures (|form.senha| >= 6 && forall i :: 0 <= i < |form.senha| ==> form.senha[i] as int <= 0xFFFF)
              ==> !Invalid(form, Senha)
    ensures |form.senha| <= 2 ==> Invalid(form, Senha)
  {
    if forall i :: 0 <= i < |form.senha| ==> form.senha[i] as int <= 0xFFFF {
      Utf16LengthBmp(form.senha);
    }
  }

  lemma {:induction false} Utf16LengthBmp(s: string)
    requires forall i :: 0 <= i < |s| ==> s[i] as int <= 0xFFFF
    ensures Utf16Length(s) == |s|
  {
    if s != [] {
      Utf16LengthBmp(s[..|s| - 1]);
    }
  }

  /** The messages validation records after checking `fields` in order:
      each invalid field adds its own message. */
  function ErrorsOn(form: FormData, fields: seq<Field>): map<Field, string> {
    if fields == [] then map[]
    else
      var e := ErrorsOn(form, fields[..|fields| - 1]);
      var g := fields[|fields| - 1];
      if Invalid(form, g) then e[g := Message(g)] else e
  }

  /** After checking `fields`, a field has a message exactly when it is one
      of them and invalid, and the message is that field's. */
  lemma {:induction false} ErrorsOnExactly(form: FormData, fields: seq<Field>, f: Field)
    ensures f in ErrorsOn(form, fields) <==> f in fields && Invalid(form, f)
    ensures f in ErrorsOn(form, fields) ==> ErrorsOn(form, fields)[f] == Message(f)
  {
    if fields != [] {
      var init := fields[..|fields| - 1];
      ErrorsOnExactly(form, init, f);
      assert fields == init + [fields[|fields| - 1]];
    }
  }

  /** Checking one more field adds its message when it is invalid. */
  lemma ErrorsOnStep(form: FormData, fields: seq<Field>, g: Field)
    ensures ErrorsOn(form, fields + [g]) ==
              if Invalid(form, g) then ErrorsOn(form, fields)[g := Message(g)] else ErrorsOn(form, fields)
  {
    assert (fields + [g])[..|fields|] == fields;
  }

  /** The order the checks run in. */
  const CheckOrder := [Nome, Email, Cpf, Senha, ConfirmarSenha]

  /** Every field checked: the messages `validate` records. A field has a
      message exactly when it is invalid, and the message is that field's
      own. */
  function ErrorsFor(form: FormData): (e: map<Field, string>)
    ensures forall f :: f in e <==> Invalid(form, f)
    ensures forall f :: f in e ==> e[f] == Message(f)
  {
    ErrorsOnCheckOrder(form);
    ErrorsOn(form, CheckOrder)
  }

  lemma ErrorsOnCheckOrder(form: FormData)
    ensures forall f :: f in ErrorsOn(form, CheckOrder) <==> Invalid(form, f)
    ensures forall f :: f in ErrorsOn(form, CheckOrder) ==> ErrorsOn(form, CheckOrder)[f] == Message(f)
  {
    forall f {
      ErrorsOnExactly(form, CheckOrder, f);
    }
  }

  /** `e` with field `g`'s message added when `g` is invalid. */
  function AddIfInvalid(e: map<Field, string>, form: FormData, g: Field): map<Field, string> {
    if Invalid(form, g) then e[g := Message(g)] else e
  }

  /** The five checks of `validate`, one after the other. */
  lemma ErrorsForUnrolled(form: FormData)
    ensures ErrorsFor(form)
         == AddIfInvalid(AddIfInvalid(AddIfInvalid(AddIfInvalid(AddIfInvalid(
              map[], form, Nome), form, Email), form, Cpf), form, Senha), form, ConfirmarSenha)
  {
    var s0: seq<Field> := [];
    var s1 := s0 + [Nome];
    var s2 := s1 + [Email];
    var s3 := s2 + [Cpf];
    var s4 := s3 + [Senha];
    ErrorsOnStep(form, s0, Nome);
    ErrorsOnStep(form, s1, Email);
    ErrorsOnStep(form, s2, Cpf);
    ErrorsOnStep(form, s3, Senha);
    ErrorsOnStep(form, s4, ConfirmarSenha);
    assert s4 + [ConfirmarSenha] == CheckOrder;
  }

  /** Every field passes validation. */
  predicate AllValid(form: FormData) {
    forall f :: !Invalid(form, f)
  }

  /** No messages exactly when every field is valid. */
  lemma ErrorsForEmpty(form: FormData)
    ensures |ErrorsFor(form)| == 0 <==> AllValid(form)
  {
    if |ErrorsFor(form)| != 0 {
      var f :| f in ErrorsFor(form);
    }
  }

  class SignUpForm {
    var formData: FormData
    var errors: map<Field, string>

    /** The message shown under field `f`: `errors[name] && ...`. */
    function Shown(f: Field): (m: string)
      reads this
      ensures m != "" ==> f in errors && errors[f] == m
    {
      if f in errors then errors[f] else ""
    }

    constructor()
      ensures formData == FormData("", "", "", "", "") && errors == map[]
    {
      formData := FormData("", "", "", "", "");
      errors := map[];
    }

    /** `validate`: records a message for every invalid field and no other,
        and reports whether there were none. */
    method Validate() returns (ok: bool)
      modifies this
      ensures formData == old(formData)
      ensures errors == ErrorsFor(formData)
      ensures ok <==> AllValid(formData)
    {
      var form := formData;
      var newErrors: map<Field, string> := map[];
      if Trim(form.nome) == "" {
        newErrors := newErrors[Nome := NomeObrigatorio];
      }
      if !EmailOk(form.email) {
        newErrors := newErrors[Email := EmailInvalido];
      }
      if !CpfOk(form.cpf) {
        newErrors := newErrors[Cpf := CpfInvalido];
      }
      if Utf16Length(form.senha) < 6 {
        newErrors := newErrors[Senha := SenhaCurta];
      }
      if form.senha != form.confirmarSenha {
        newErrors := newErrors[ConfirmarSenha := SenhasDiferentes];
      }
      ErrorsForUnrolled(form);
      errors := newErrors;
      ok := |newErrors| == 0;
      ErrorsForEmpty(form);
    }

    /** `handleChange`: stores the value typed in field `f` and clears that
        field's message; every other field and message is kept. */
    method HandleChange(f: Field, value: string)
      modifies this
      ensures formData == WithValue(old(formData), f, value)
      ensures errors == old(errors)[f := ""]
      ensures Shown(f) == ""
      ensures forall g :: g != f ==> ValueOf(formData, g) == ValueOf(old(formData), g) && Shown(g) == old(Shown(g))
    {
      formData := WithValue(formData, f, value);
      errors := errors[f := ""];
    }
  }
}
