/**
 * The guards the charity-project endpoints run before changing a project.
 * Each one either lets the request through or rejects it with an HTTP error.
 */
module Validators {
  import opened Wrappers
  import opened Ledger
  import Crud

  const BadRequest: int := 400
  const NotFound: int := 404
  const UnprocessableEntity: int := 422

  /** Why a request was rejected; the message the client is shown. */
  datatype Detail =
    | AmountBelowInvested(investedAmount: int)
    | ProjectMissing
    | ProjectHasFunds
    | ProjectClosed

  datatype HttpError = HttpError(statusCode: int, detail: Detail)

  /**
   * `check_full_amount_not_decrease`: a new required amount below what has
   * already been invested is rejected with 422; an equal one is accepted.
   */
  function CheckFullAmountNotDecrease(investedAmount: int, newFullAmount: int): (r: Outcome<HttpError>)
    ensures r.Fail? <==> newFullAmount < investedAmount
    ensures r.Fail? ==> r.error == HttpError(UnprocessableEntity, AmountBelowInvested(investedAmount))
  {
    if newFullAmount < investedAmount then
      Fail(HttpError(UnprocessableEntity, AmountBelowInvested(investedAmount)))
    else
      Pass
  }

  /**
   * `check_project_exists`: the project stored under `projectId`, exactly as
   * the lookup returns it, or 404 when there is none.
   */
  function CheckProjectExists(store: seq<Entity>, projectId: int): (r: Result<Entity, HttpError>)
    ensures r.Success? <==> exists i :: 0 <= i < |store| && store[i].id == projectId
    ensures r.Success? ==> r.value in store && r.value.id == projectId
    ensures r.Success? ==> Crud.Get(store, projectId) == Some(r.value)
    ensures r.Failure? ==> r.error == HttpError(NotFound, ProjectMissing)
  {
    match Crud.Get(store, projectId)
    case None => Failure(HttpError(NotFound, ProjectMissing))
    case Some(project) => Success(project)
  }

  /**
   * `check_project_invested`: a project may only be deleted while its
   * invested amount is exactly 0; an unset amount differs from 0 and is
   * rejected as well, with 400.
   */
  function CheckProjectInvested(project: Entity): (r: Outcome<HttpError>)
    reads project
    ensures r.Pass? <==> project.investedAmount == Some(0)
    ensures r.Fail? ==> r.error == HttpError(BadRequest, ProjectHasFunds)
  {
    if project.investedAmount != Some(0) then Fail(HttpError(BadRequest, ProjectHasFunds)) else Pass
  }

  /** `check_project_is_active`: a closed project cannot be edited (400). */
  function CheckProjectIsActive(project: Entity): (r: Outcome<HttpError>)
    reads project
    ensures r.Pass? <==> !project.fullyInvested
    ensures r.Fail? ==> r.error == HttpError(BadRequest, ProjectClosed)
  {
    if project.fullyInvested then Fail(HttpError(BadRequest, ProjectClosed)) else Pass
  }

  /**
   * The edit check agrees with the candidate selector: a stored project
   * passes it exactly when the allocation would pick it as a candidate.
   */
  lemma ActiveCheckAgreesWithSelector(store: seq<Entity>, project: Entity)
    requires project in store
    ensures CheckProjectIsActive(project).Pass? <==> project in Crud.GetActiveObjects(store)
  {
  }

  /**
   * Changing the required amount of an open project to one the check
   * accepts keeps its invested amount within bounds; the ledger invariant
   * survives unless the new amount equals the invested one, in which case the
   * project stays open with nothing left to raise. The next allocation it
   * takes part in credits it 0 and closes it.
   */
  lemma AcceptedFullAmountKeepsBound(f: Funding, newFullAmount: int, now: Timestamp)
    requires f.Valid() && !f.fullyInvested
    requires CheckFullAmountNotDecrease(f.Invested(), newFullAmount).Pass?
    ensures var g := f.(fullAmount := newFullAmount);
      && 0 <= g.Invested() <= g.fullAmount
      && (g.Valid() <==> newFullAmount != f.Invested())
      && (newFullAmount == f.Invested() ==>
            && g.Room() == 0 && !g.fullyInvested
            && (g.investedAmount.Some? ==> Credit(g, 0, now).Valid() && Credit(g, 0, now).fullyInvested))
  {
  }

  /** The amount invested in all stored projects. */
  function TotalInvested(store: seq<Entity>): (r: int)
    reads store
    ensures (forall i :: 0 <= i < |store| ==> store[i].State().Valid()) ==> r >= 0
  {
    if store == [] then 0 else TotalInvested(store[..|store| - 1]) + store[|store| - 1].State().Invested()
  }

  lemma {:induction false} TotalInvestedAppend(a: seq<Entity>, b: seq<Entity>)
    ensures TotalInvested(a + b) == TotalInvested(a) + TotalInvested(b)
    decreases |b|
  {
    if b == [] {
      assert a + b == a;
    } else {
      assert (a + b)[..|a + b| - 1] == a + b[..|b| - 1];
      TotalInvestedAppend(a, b[..|b| - 1]);
    }
  }

  /**
   * Deleting a project the check lets through takes no money out of the
   * fund: the total invested in the remaining projects is unchanged.
   */
  lemma RemovingUninvestedProjectKeepsTotal(before: seq<Entity>, project: Entity, after: seq<Entity>)
    requires CheckProjectInvested(project).Pass?
    ensures TotalInvested(before + [project] + after) == TotalInvested(before + after)
  {
    TotalInvestedAppend(before + [project], after);
    TotalInvestedAppend(before, [project]);
    assert [project][..0] == [];
    TotalInvestedAppend(before, after);
  }
}
