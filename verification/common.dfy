/**
 * Shared vocabulary of the model: optional values (Java's nullable
 * references), results (Java's exceptions as values), the exception kinds
 * the modelled code raises, and the few string helpers from Spring's
 * StringUtils that the core relies on.
 */
module Common {

  /** Bean names, paths and other identifiers are plain strings. */
  type Name = string

  /** A nullable Java reference: `None` is `null`. */
  datatype Option<+T> = None | Some(value: T) {

    predicate IsFailure() {
      None?
    }

    function PropagateFailure<U>(): Option<U>
      requires None?
    {
      None
    }

    function Extract(): T
      requires Some?
    {
      value
    }

    function GetOr(default: T): T {
      match this
      case Some(v) => v
      case None => default
    }
  }

  /**
   * The exception classes thrown by the modelled code. Each carries the
   * bean name where the Java exception does; messages are not modelled.
   */
  datatype Error =
    | BeanCreation(beanName: Option<Name>)
    | BeanCurrentlyInCreation(creatingBean: Name)
    | BeanDefinitionStore
    | IllegalArgument
    | IllegalState
    | HttpMediaTypeNotSupported
    | HttpMessageNotReadable
    | MethodArgumentNotValid

  /** A value or the exception that replaced it. */
  datatype Result<+T> = Ok(value: T) | Err(error: Error) {

    predicate IsFailure() {
      Err?
    }

    function PropagateFailure<U>(): Result<U>
      requires Err?
    {
      Err(error)
    }

    function Extract(): T
      requires Ok?
    {
      value
    }
  }

  /**
   * Java's Character.isWhitespace: the space, line and paragraph separators
   * of Unicode other than the no-break spaces (U+00A0, U+2007, U+202F),
   * and the controls U+0009 to U+000D and U+001C to U+001F.
   */
  predicate IsWhitespace(c: char) {
    c == ' ' || ('\t' <= c <= '\r') || ('\U{1C}' <= c <= '\U{1F}')
    || c == '\U{1680}' || ('\U{2000}' <= c <= '\U{2006}') || ('\U{2008}' <= c <= '\U{200A}')
    || c == '\U{2028}' || c == '\U{2029}' || c == '\U{205F}' || c == '\U{3000}'
  }

  /** StringUtils.hasText: not null and holding a non-whitespace character. */
  predicate HasText(s: Option<string>) {
    s.Some? && exists i :: 0 <= i < |s.value| && !IsWhitespace(s.value[i])
  }

  /** String.startsWith. */
  predicate StartsWith(s: string, prefix: string) {
    prefix <= s
  }

  /** String.endsWith. */
  predicate EndsWith(s: string, suffix: string) {
    |suffix| <= |s| && s[|s| - |suffix|..] == suffix
  }

  /** No element occurs twice (the shape of a Java Set or of bean-name arrays). */
  predicate NoDuplicates<T(==)>(s: seq<T>) {
    forall i, j :: 0 <= i < j < |s| ==> s[i] != s[j]
  }

  /** The elements of `s`, as a set. */
  function Elements<T>(s: seq<T>): set<T> {
    set x | x in s
  }
}
