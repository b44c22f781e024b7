/**
 * The uniform response envelope returned by every service operation:
 * a status code, a message for the user and an optional payload.
 */
module ApiResult {
  import opened Wrappers

  const SuccessCode: int := 200
  const ErrorCode: int := 500
  const DefaultSuccessMsg: string := "操作成功"

  datatype Result<T> = Result(code: int, msg: string, data: Option<T>) {

    /** The class has no isSuccess(); its callers' use of it is read as "the code is 200". */
    predicate IsSuccess() {
      code == SuccessCode
    }
  }

  /** success(): code 200, the default message and no data. */
  function Success<T>(): (r: Result<T>)
    ensures r.IsSuccess() && r.msg == DefaultSuccessMsg && r.data.None?
  {
    Result(SuccessCode, DefaultSuccessMsg, None)
  }

  /** success(data): code 200, the default message and the data as given. */
  function SuccessWith<T>(data: T): (r: Result<T>)
    ensures r.IsSuccess() && r.msg == DefaultSuccessMsg && r.data == Some(data)
  {
    Result(SuccessCode, DefaultSuccessMsg, Some(data))
  }

  /** success(msg, data): code 200 with exactly the given message and data. */
  function SuccessMsg<T>(msg: string, data: T): (r: Result<T>)
    ensures r.IsSuccess() && r.msg == msg && r.data == Some(data)
  {
    Result(SuccessCode, msg, Some(data))
  }

  /** error(msg): code 500 with the given message; the data is never set. */
  function Error<T>(msg: string): (r: Result<T>)
    ensures !r.IsSuccess() && r.code == ErrorCode && r.msg == msg && r.data.None?
  {
    Result(ErrorCode, msg, None)
  }

  /**
   * error(code, msg): exactly the given code and message, no data.  Nothing stops a
   * caller from passing 200, and such an "error" then reads as a success.
   */
  function ErrorWithCode<T>(code: int, msg: string): (r: Result<T>)
    ensures r.code == code && r.msg == msg && r.data.None?
    ensures r.IsSuccess() <==> code == SuccessCode
  {
    Result(code, msg, None)
  }

  /** The success factories carry their data unchanged: equal results mean equal inputs. */
  lemma SuccessMsgInjective<T>(m1: string, d1: T, m2: string, d2: T)
    requires SuccessMsg(m1, d1) == SuccessMsg(m2, d2)
    ensures m1 == m2 && d1 == d2
  {
  }

  /** No error(msg) is ever equal to a result of a success factory. */
  lemma ErrorIsNeverSuccess<T>(msg: string, m: string, d: T)
    ensures Error<T>(msg) != Success<T>()
    ensures Error<T>(msg) != SuccessWith(d)
    ensures Error<T>(msg) != SuccessMsg(m, d)
  {
  }
}
