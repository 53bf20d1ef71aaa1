/**
 * Updating an inference endpoint: the existing endpoint is looked up, its
 * service resolved, its settings merged with the update, and the result
 * written either straight to the model registry or, for an endpoint served
 * by an in-cluster deployment, by first updating that deployment. Settings
 * are opaque; how a service merges them, what the registry and the cluster
 * answer, and what a write returns are parameters.
 */
module InferenceEndpointUpdate {
  import opened Wrappers

  /** The names of the in-cluster service: its current name and the old ELSER name. */
  const InternalServiceName := "elasticsearch"
  const OldElserServiceName := "elser"

  const NumAllocations := "num_allocations"

  /** The messages the update fails with. */
  datatype Message =
    | TaskTypeMustMatch
    | ServiceNotFound
    | FailedToUpdateModel
    | UpdatedModelNotFound
    | FailedToParseUpdateRequest
    | NotAnInternalModel
    | EntityNonExistentNoUpdate
    | ReferenceCannotUpdateAnotherEndpoint
    | CanOnlyUpdateModelsItCreated
    | ModelIdDoesNotMatchExistingModelIds

  /** The message texts; the last four are keys into a message table this model does not hold. */
  function Text(m: Message): string {
    match m
    case TaskTypeMustMatch => "Task type must match the task type of the existing endpoint"
    case ServiceNotFound => "Service [{}] not found"
    case FailedToUpdateModel => "Failed to update model"
    case UpdatedModelNotFound => "Failed to update model, updated model not found"
    case FailedToParseUpdateRequest => "Failed to parse [{}] of update request [{}]"
    case NotAnInternalModel => "Cannot update inference endpoint [%s]. Class [%s] is not an Elasticsearch internal model"
    case EntityNonExistentNoUpdate => "INFERENCE_ENTITY_NON_EXISTANT_NO_UPDATE"
    case ReferenceCannotUpdateAnotherEndpoint => "INFERENCE_REFERENCE_CANNOT_UPDATE_ANOTHER_ENDPOINT"
    case CanOnlyUpdateModelsItCreated => "INFERENCE_CAN_ONLY_UPDATE_MODELS_IT_CREATED"
    case ModelIdDoesNotMatchExistingModelIds => "MODEL_ID_DOES_NOT_MATCH_EXISTING_MODEL_IDS_BUT_MUST_FOR_IN_CLUSTER_SERVICE"
  }

  type TaskType = string

  /** A settings object, opaque here. */
  type Params = map<string, string>

  /** Service settings, and whether they are the in-cluster service's (whose deployment can be updated). */
  datatype ServiceSettings = ServiceSettings(internal: bool, params: Params)

  /**
   * A parsed endpoint. `mlNodeDeploymentId` is present exactly for an
   * in-cluster model, which knows the deployment serving it.
   */
  datatype Model = Model(
    inferenceEntityId: string,
    taskType: TaskType,
    service: string,
    serviceSettings: ServiceSettings,
    taskSettings: Option<Params>,
    secretSettings: Option<Params>,
    mlNodeDeploymentId: Option<string>)

  datatype ModelConfigurations = ModelConfigurations(
    inferenceEntityId: string, taskType: TaskType, service: string,
    serviceSettings: ServiceSettings, taskSettings: Option<Params>)

  function Configurations(m: Model): ModelConfigurations {
    ModelConfigurations(m.inferenceEntityId, m.taskType, m.service, m.serviceSettings, m.taskSettings)
  }

  /** The settings a request asks to change; either may be absent. */
  datatype UpdateSettings = UpdateSettings(serviceSettings: Option<Params>, taskSettings: Option<Params>)

  /** How a service's settings absorb an update. */
  datatype SettingsUpdaters = SettingsUpdaters(
    newSecretSettings: (Params, Params) -> Params,
    updateServiceSettings: (Params, Params) -> Params,
    updatedTaskSettings: (Params, Params) -> Params)

  datatype RestStatus = BadRequest | Conflict | InternalServerError

  datatype Exception =
    | StatusException(status: RestStatus, message: Message, args: seq<string>)
    | ResourceNotFound(message: Message, args: seq<string>)
    | IllegalState(message: Message, args: seq<string>)
    | NullPointer
    | OtherException(description: string)

  // ---------------------------------------------------------------------------
  // combineExistingModelWithNewSettings
  // ---------------------------------------------------------------------------

  /**
   * The existing endpoint with the update's settings merged in: secrets are
   * renewed from new service settings when there are secrets, in-cluster
   * service settings absorb new service settings, task settings absorb new
   * task settings when there are some; the id and task type stay, the service
   * name is the resolved service's. A task type other than the endpoint's
   * is refused.
   */
  function CombineExistingModelWithNewSettings(existing: Model, update: UpdateSettings, serviceName: string,
                                               resolvedTaskType: TaskType, u: SettingsUpdaters): (r: Result<Model, Exception>)
    ensures r.Failure? <==> existing.taskType != resolvedTaskType
    ensures r.Failure? ==> r.error == StatusException(BadRequest, TaskTypeMustMatch, [])
    ensures r.Success? ==> r.value.inferenceEntityId == existing.inferenceEntityId && r.value.taskType == existing.taskType
    ensures r.Success? ==> r.value.service == serviceName && r.value.mlNodeDeploymentId.None?
    ensures r.Success? ==>
      if update.serviceSettings.Some? && existing.secretSettings.Some?
      then r.value.secretSettings == Some(u.newSecretSettings(existing.secretSettings.value, update.serviceSettings.value))
      else r.value.secretSettings == existing.secretSettings
    ensures r.Success? ==>
      if update.serviceSettings.Some? && existing.serviceSettings.internal
      then r.value.serviceSettings == ServiceSettings(true, u.updateServiceSettings(existing.serviceSettings.params, update.serviceSettings.value))
      else r.value.serviceSettings == existing.serviceSettings
    ensures r.Success? ==>
      if update.taskSettings.Some? && existing.taskSettings.Some?
      then r.value.taskSettings == Some(u.updatedTaskSettings(existing.taskSettings.value, update.taskSettings.value))
      else r.value.taskSettings == existing.taskSettings
  {
    var newSecrets :=
      if update.serviceSettings.Some? && existing.secretSettings.Some?
      then Some(u.newSecretSettings(existing.secretSettings.value, update.serviceSettings.value))
      else existing.secretSettings;
    var newServiceSettings :=
      if update.serviceSettings.Some? && existing.serviceSettings.internal
      then ServiceSettings(true, u.updateServiceSettings(existing.serviceSettings.params, update.serviceSettings.value))
      else existing.serviceSettings;
    var newTaskSettings :=
      if update.taskSettings.Some? && existing.taskSettings.Some?
      then Some(u.updatedTaskSettings(existing.taskSettings.value, update.taskSettings.value))
      else existing.taskSettings;
    if existing.taskType != resolvedTaskType then
      Failure(StatusException(BadRequest, TaskTypeMustMatch, []))
    else
      Success(Model(existing.inferenceEntityId, existing.taskType, serviceName, newServiceSettings, newTaskSettings, newSecrets, None))
  }

  /**
   * An update carrying no settings changes nothing but the service name; and
   * whatever it carries, the merged service settings are in-cluster settings
   * exactly when the existing ones were.
   */
  lemma CombineKeepsWhatIsNotUpdated(existing: Model, update: UpdateSettings, serviceName: string, u: SettingsUpdaters)
    ensures var r := CombineExistingModelWithNewSettings(existing, update, serviceName, existing.taskType, u);
      && r.Success?
      && r.value.serviceSettings.internal == existing.serviceSettings.internal
      && (update.serviceSettings.None? && update.taskSettings.None? ==>
            r.value == existing.(service := serviceName, mlNodeDeploymentId := None))
  {
  }

  // ---------------------------------------------------------------------------
  // The in-cluster decisions
  // ---------------------------------------------------------------------------

  /** `isInClusterService`. */
  function IsInClusterService(name: string): (b: bool)
    ensures b <==> name == InternalServiceName || name == OldElserServiceName
  {
    name in [InternalServiceName, OldElserServiceName]
  }

  /** A registry lookup: a model, no model, or a failure. */
  datatype Lookup = Found(model: UnparsedModel) | Absent | Failed(error: Exception)

  datatype UnparsedModel = UnparsedModel(inferenceEntityId: string, taskType: TaskType, service: string, settings: Params, secrets: Params)

  /** `checkEndpointExists`: a missing endpoint, or a not-found failure, is reported as not found; other failures pass through. */
  function CheckEndpointExists(inferenceEntityId: string, lookup: Lookup): (r: Result<UnparsedModel, Exception>)
    ensures r.Success? <==> lookup.Found?
    ensures r.Success? ==> r.value == lookup.model
    ensures lookup.Absent? || (lookup.Failed? && lookup.error.ResourceNotFound?) ==>
              r == Failure(ResourceNotFound(EntityNonExistentNoUpdate, [inferenceEntityId]))
    ensures lookup.Failed? && !lookup.error.ResourceNotFound? ==> r == Failure(lookup.error)
  {
    match lookup
    case Found(model) => Success(model)
    case Absent => Failure(ResourceNotFound(EntityNonExistentNoUpdate, [inferenceEntityId]))
    case Failed(e) =>
      if e.ResourceNotFound? then Failure(ResourceNotFound(EntityNonExistentNoUpdate, [inferenceEntityId]))
      else Failure(e)
  }

  /** The writes an update performs: a deployment update on the cluster, and a registry transaction. */
  datatype Write =
    | UpdateDeployment(deploymentId: string, settings: Params)
    | UpdateModelTransaction(newModel: Model, existing: Model)

  /** What the cluster and the registry answer. */
  datatype Cluster = Cluster(
    getModelWithSecrets: string -> Lookup,
    getModel: string -> Lookup,
    getModelAfterUpdate: string -> Lookup,
    hasAssignments: string -> bool,
    updateDeployment: (string, Params) -> Option<Exception>,
    updateModelTransaction: (Model, Model) -> Result<bool, Exception>)

  datatype Outcome = Outcome(result: Result<bool, Exception>, writes: seq<Write>)

  /**
   * `updateInClusterEndpoint`: only the endpoint that created a deployment
   * may update it. An endpoint whose id is not its deployment's id is refused
   * and nothing is written; otherwise the deployment is updated and then the
   * registry.
   */
  function UpdateInClusterEndpoint(cluster: Cluster, inferenceEntityId: string, content: string,
                                   newModel: Model, existing: Model): (o: Outcome)
    ensures existing.mlNodeDeploymentId.None? ==> o.result.Failure? && o.result.error.IllegalState? && o.writes == []
    ensures o.writes != [] ==> existing.mlNodeDeploymentId == Some(inferenceEntityId)
    ensures forall w :: w in o.writes && w.UpdateDeployment? ==> w.deploymentId == inferenceEntityId
    ensures existing.mlNodeDeploymentId.Some? && existing.mlNodeDeploymentId.value != inferenceEntityId ==>
              o.result.Failure? && o.writes == []
    ensures o.result.Success? ==>
      o.writes == [UpdateDeployment(inferenceEntityId, newModel.serviceSettings.params), UpdateModelTransaction(newModel, existing)]
      && o.result == cluster.updateModelTransaction(newModel, existing)
    ensures existing.mlNodeDeploymentId.Some? && !cluster.hasAssignments(existing.mlNodeDeploymentId.value) ==>
              o == Outcome(Failure(ResourceNotFound(ModelIdDoesNotMatchExistingModelIds, [inferenceEntityId])), [])
    ensures existing.mlNodeDeploymentId.Some? && cluster.hasAssignments(existing.mlNodeDeploymentId.value)
            && existing.mlNodeDeploymentId.value != inferenceEntityId ==>
              var deploymentId := existing.mlNodeDeploymentId.value;
              o == Outcome(Failure(ForeignDeploymentRefusal(inferenceEntityId, deploymentId, cluster.getModel(deploymentId))), [])
    ensures existing.mlNodeDeploymentId == Some(inferenceEntityId) && cluster.hasAssignments(inferenceEntityId)
            && !newModel.serviceSettings.internal ==>
              o == Outcome(Failure(StatusException(BadRequest, FailedToParseUpdateRequest, [NumAllocations, content])), [])
    ensures o.writes != [] ==>
              cluster.hasAssignments(inferenceEntityId) && newModel.serviceSettings.internal
              && o.writes[0] == UpdateDeployment(inferenceEntityId, newModel.serviceSettings.params)
    ensures forall w :: w in o.writes && w.UpdateModelTransaction? ==> w == UpdateModelTransaction(newModel, existing)
    ensures existing.mlNodeDeploymentId == Some(inferenceEntityId) && cluster.hasAssignments(inferenceEntityId)
            && newModel.serviceSettings.internal ==>
              o == UpdateOwnDeployment(cluster, inferenceEntityId, newModel, existing)
  {
    if existing.mlNodeDeploymentId.None? then
      Outcome(Failure(IllegalState(NotAnInternalModel,
                                   [existing.inferenceEntityId])), [])
    else
      var deploymentId := existing.mlNodeDeploymentId.value;
      if !cluster.hasAssignments(deploymentId) then
        Outcome(Failure(ResourceNotFound(ModelIdDoesNotMatchExistingModelIds, [inferenceEntityId])), [])
      else if inferenceEntityId != deploymentId then
        Outcome(Failure(ForeignDeploymentRefusal(inferenceEntityId, deploymentId, cluster.getModel(deploymentId))), [])
      else if newModel.serviceSettings.internal then
        UpdateOwnDeployment(cluster, deploymentId, newModel, existing)
      else
        Outcome(Failure(StatusException(BadRequest, FailedToParseUpdateRequest, [NumAllocations, content])), [])
  }

  /**
   * Why an endpoint may not update a deployment it did not create: CONFLICT,
   * naming the endpoint that did create it, or saying the trained models API
   * did; a lookup that fails otherwise (or answers nothing, which is then
   * dereferenced) fails with its own error.
   */
  function ForeignDeploymentRefusal(inferenceEntityId: string, deploymentId: string, owner: Lookup): (e: Exception)
    ensures owner.Found? ==>
      e == StatusException(Conflict, ReferenceCannotUpdateAnotherEndpoint, [inferenceEntityId, deploymentId, owner.model.inferenceEntityId])
    ensures owner.Failed? && owner.error.ResourceNotFound? ==>
      e == StatusException(Conflict, CanOnlyUpdateModelsItCreated, [inferenceEntityId, deploymentId])
    ensures owner.Failed? && !owner.error.ResourceNotFound? ==> e == owner.error
    ensures owner.Absent? ==> e == NullPointer
  {
    match owner
    case Found(other) =>
      StatusException(Conflict, ReferenceCannotUpdateAnotherEndpoint, [inferenceEntityId, deploymentId, other.inferenceEntityId])
    case Absent => NullPointer
    case Failed(e) =>
      if e.ResourceNotFound? then StatusException(Conflict, CanOnlyUpdateModelsItCreated, [inferenceEntityId, deploymentId])
      else e
  }

  /** The endpoint's own deployment: update the deployment, and only once that succeeds, the registry. */
  function UpdateOwnDeployment(cluster: Cluster, deploymentId: string, newModel: Model, existing: Model): (o: Outcome)
    ensures 1 <= |o.writes| <= 2 && o.writes[0] == UpdateDeployment(deploymentId, newModel.serviceSettings.params)
    ensures |o.writes| == 2 <==> cluster.updateDeployment(deploymentId, newModel.serviceSettings.params).None?
    ensures |o.writes| == 2 ==> o.writes[1] == UpdateModelTransaction(newModel, existing) &&
                                o.result == cluster.updateModelTransaction(newModel, existing)
    ensures |o.writes| == 1 ==> o.result == Failure(cluster.updateDeployment(deploymentId, newModel.serviceSettings.params).value)
  {
    var deploymentWrite := UpdateDeployment(deploymentId, newModel.serviceSettings.params);
    match cluster.updateDeployment(deploymentId, newModel.serviceSettings.params)
    case Some(e) => Outcome(Failure(e), [deploymentWrite])
    case None =>
      Outcome(cluster.updateModelTransaction(newModel, existing), [deploymentWrite, UpdateModelTransaction(newModel, existing)])
  }

  /**
   * The own-deployment branch end to end: a failed deployment update is the
   * result, with only that write; otherwise the registry is written too and
   * its answer, failure included, is the result.
   */
  lemma OwnDeploymentOutcomes(cluster: Cluster, inferenceEntityId: string, content: string, newModel: Model, existing: Model)
    requires existing.mlNodeDeploymentId == Some(inferenceEntityId) && cluster.hasAssignments(inferenceEntityId)
    requires newModel.serviceSettings.internal
    ensures var o := UpdateInClusterEndpoint(cluster, inferenceEntityId, content, newModel, existing);
      var deployment := cluster.updateDeployment(inferenceEntityId, newModel.serviceSettings.params);
      && (deployment.Some? ==>
            o == Outcome(Failure(deployment.value), [UpdateDeployment(inferenceEntityId, newModel.serviceSettings.params)]))
      && (deployment.None? ==>
            o.result == cluster.updateModelTransaction(newModel, existing)
            && o.writes == [UpdateDeployment(inferenceEntityId, newModel.serviceSettings.params), UpdateModelTransaction(newModel, existing)])
  {
  }

  // ---------------------------------------------------------------------------
  // masterOperation
  // ---------------------------------------------------------------------------

  /** An inference service as the update sees it. */
  datatype Service = Service(
    name: string,
    parsePersistedConfigWithSecrets: (string, TaskType, Params, Params) -> Model,
    parsePersistedConfig: (string, TaskType, Params) -> Model,
    updaters: SettingsUpdaters)

  datatype Request = Request(inferenceEntityId: string, settings: UpdateSettings, content: string)

  /**
   * `masterOperation` past the license check, its asynchronous steps run in
   * order: find the endpoint, resolve its service, merge the settings, write,
   * and read the updated endpoint back.
   */
  method MasterOperation(cluster: Cluster, services: string -> Option<Service>, request: Request, resolvedTaskType: TaskType)
    returns (r: Result<ModelConfigurations, Exception>, writes: seq<Write>)
    ensures var found := CheckEndpointExists(request.inferenceEntityId, cluster.getModelWithSecrets(request.inferenceEntityId));
      found.Failure? ==> r == Failure(found.error) && writes == []
    ensures writes != [] ==> cluster.getModelWithSecrets(request.inferenceEntityId).Found?
    ensures forall w :: w in writes && w.UpdateModelTransaction? ==>
              w.newModel.taskType == w.existing.taskType == resolvedTaskType
    ensures forall w :: w in writes && w.UpdateDeployment? ==> w.deploymentId == request.inferenceEntityId
    ensures r.Success? ==> exists w :: w in writes && w.UpdateModelTransaction? &&
                             cluster.updateModelTransaction(w.newModel, w.existing) == Success(true)
    ensures (exists w :: w in writes && w.UpdateModelTransaction? &&
               cluster.updateModelTransaction(w.newModel, w.existing) == Success(false)) ==>
              r == Failure(StatusException(InternalServerError, FailedToUpdateModel, []))
    ensures var found := cluster.getModelWithSecrets(request.inferenceEntityId);
      found.Found? && services(found.model.service).None? ==>
        r == Failure(StatusException(InternalServerError, ServiceNotFound, [found.model.service])) && writes == []
    ensures var id, found := request.inferenceEntityId, cluster.getModelWithSecrets(request.inferenceEntityId);
      found.Found? && services(found.model.service).Some? ==>
        var svc := services(found.model.service).value;
        var existing := svc.parsePersistedConfigWithSecrets(id, found.model.taskType, found.model.settings, found.model.secrets);
        var merged := CombineExistingModelWithNewSettings(existing, request.settings, svc.name, resolvedTaskType, svc.updaters);
        // a task type other than the endpoint's is refused before anything is written
        && (existing.taskType != resolvedTaskType ==>
              r == Failure(StatusException(BadRequest, TaskTypeMustMatch, [])) && writes == [])
        // the registry transaction, when there is one, writes the merged model over the existing one
        && (forall w :: w in writes && w.UpdateModelTransaction? ==> merged.Success? && w == UpdateModelTransaction(merged.value, existing))
        // an in-cluster service goes through the deployment checks, any other straight to the registry
        && (merged.Success? ==>
              writes == (if IsInClusterService(svc.name)
                         then UpdateInClusterEndpoint(cluster, id, request.content, merged.value, existing).writes
                         else [UpdateModelTransaction(merged.value, existing)]))
        // a failed write step is the response
        && (merged.Success? ==>
              var didUpdate := if IsInClusterService(svc.name)
                               then UpdateInClusterEndpoint(cluster, id, request.content, merged.value, existing).result
                               else cluster.updateModelTransaction(merged.value, existing);
              didUpdate.Failure? ==> r == Failure(didUpdate.error))
        // once the update went through, the endpoint read back is the answer, or its absence an error
        && ((exists w :: w in writes && w.UpdateModelTransaction? && cluster.updateModelTransaction(w.newModel, w.existing) == Success(true)) ==>
              match cluster.getModelAfterUpdate(id)
              case Absent => r == Failure(StatusException(InternalServerError, UpdatedModelNotFound, []))
              case Failed(e) => r == Failure(e)
              case Found(updated) => r == Success(Configurations(svc.parsePersistedConfig(id, resolvedTaskType, updated.settings))))
  {
    var id := request.inferenceEntityId;
    var found := CheckEndpointExists(id, cluster.getModelWithSecrets(id));
    if found.Failure? {
      return Failure(found.error), [];
    }
    var unparsed := found.value;
    var service := services(unparsed.service);
    if service.None? {
      return Failure(StatusException(InternalServerError, ServiceNotFound, [unparsed.service])), [];
    }
    var existing := service.value.parsePersistedConfigWithSecrets(id, unparsed.taskType, unparsed.settings, unparsed.secrets);
    var newModel := CombineExistingModelWithNewSettings(existing, request.settings, service.value.name, resolvedTaskType, service.value.updaters);
    if newModel.Failure? {
      return Failure(newModel.error), [];
    }
    var didUpdate: Result<bool, Exception>;
    if IsInClusterService(service.value.name) {
      var outcome := UpdateInClusterEndpoint(cluster, id, request.content, newModel.value, existing);
      didUpdate, writes := outcome.result, outcome.writes;
    } else {
      didUpdate := cluster.updateModelTransaction(newModel.value, existing);
      writes := [UpdateModelTransaction(newModel.value, existing)];
    }
    if didUpdate.Failure? {
      return Failure(didUpdate.error), writes;
    }
    if !didUpdate.value {
      return Failure(StatusException(InternalServerError, FailedToUpdateModel, [])), writes;
    }
    match cluster.getModelAfterUpdate(id) {
      case Absent =>
        r := Failure(StatusException(InternalServerError, UpdatedModelNotFound, []));
      case Failed(e) =>
        r := Failure(e);
      case Found(updated) =>
        r := Success(Configurations(service.value.parsePersistedConfig(id, resolvedTaskType, updated.settings)));
    }
  }
}
